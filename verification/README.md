# Hospital appointment scheduling — a Dafny model

This project models the decision logic of a hospital appointment system (a Spring Boot
service). The model covers:

- **Weekly schedule blocks.** A doctor works in recurring blocks: a weekday, a start and end
  time of day, and a patient capacity. Creating a block checks time order, a two-hour rule
  and exact duplicates. Each block is cut into 30-minute slots on a date.
- **Capacity.** A block's occupancy counts the doctor's appointments in it that are neither
  cancelled nor expired. Booking is refused outside working hours, then when the block is full.
- **Appointment lifecycle.** PENDING → CONFIRMED → COMPLETED, and PENDING or CONFIRMED →
  CANCELLED.
- **Adjustment requests.** A doctor proposes a block. An administrator approves it, which
  creates the block, or rejects it. A decision is final.
- **Doctor queue.** The queue is found from an anchor time window. It holds the window's
  active appointments, sorted by time and numbered from 0. The older generation of the
  service, under `src/`, always uses the 30 minutes from the requested instant.
- **Administrator statistics.** Date-range defaults, one row per day with status counts, and
  per-doctor workload.
- **Smaller services.**
  - one-shot e-mail verification codes;
  - departments whose names are unique regardless of case;
  - partial doctor updates and keyword search;
  - the older administrator service's doctor update and removal.

Every service call is a pure function from a store (the database tables as sequences, in
repository order) to `Result<(store, value)>`. An `Err` carries the exception the call would
throw and leaves the store unchanged, as the transaction rollback does.

Some representation choices:

- **Time.** Instants are whole minutes since 1970-01-01T00:00. A date is an epoch-day
  number. A time of day is a minute in `0..1439`. The weekday follows `java.time`: epoch day 0
  was a Thursday. E-mail codes use their own clock, in seconds.
- **Parameters for outside effects.** The clock, random draws, mail delivery, the password
  encoder and the older service's block creator are all parameters.

Module layout, one file per module:

| file | module | models |
|---|---|---|
| `base.dfy` | `Base` | `Option`, `Result`, the error catalogue, identity-column ids |
| `calendar.dfy` | `Calendar` | dates, times of day, weekdays |
| `seqs.dfy`, `text.dfy` | `Seqs`, `Text` | first-match search, filter, count, arg-min; `String.trim`, `hasText`, ASCII case folding, substring |
| `appointment.dfy` | `Appointments` | the `Appointment` entity, its statuses and lifecycle graph |
| `adjustment_request.dfy` | `AdjustmentRequests` | the `ScheduleAdjustmentRequest` entity |
| `directory.dfy`, `store.dfy` | `Directory`, `Store` | departments, doctors, patients, users; the database |
| `schedule_service.dfy` | `ScheduleService` | `ScheduleServiceImpl` |
| `appointment_service.dfy` | `AppointmentService` | `AppointmentServiceImpl` |
| `adjustment_workflow.dfy` | `AdjustmentWorkflow` | submitting and deciding adjustment requests, shared by both generations |
| `admin_service.dfy` | `AdminService` | `AdminServiceImpl` (current) |
| `queue.dfy` | `Queue` | building a numbered, time-sorted queue for a window |
| `doctor_dashboard.dfy` | `DoctorDashboard` | `DoctorDashboardServiceImpl` (current) |
| `email_codes.dfy` | `EmailCodes` | `EmailService` record keeping |
| `departments.dfy` | `Departments` | `DepartmentServiceImpl` |
| `doctors.dfy` | `Doctors` | `DoctorServiceImpl` |
| `legacy_admin.dfy` | `LegacyAdmin` | `src/` `AdminServiceImpl` |
| `legacy_dashboard.dfy` | `LegacyDashboard` | `src/` `DoctorDashboardServiceImpl` |

## Model

| member | source | states |
|---|---|---|
| Appointments.TransitionsMoveForward | hospital/src/main/java/com/hospital/entity/Appointment.java:48-54 | every lifecycle move goes strictly forward; COMPLETED, CANCELLED and EXPIRED have no move out; nothing moves into EXPIRED |
| Appointments.Insert | hospital/src/main/java/com/hospital/entity/Appointment.java:15-41 | a new row is accepted iff the patient is non-null and the notes fit in 500 characters; it is PENDING, holds the given fields, and both timestamps are the insert time |
| Appointments.Update | hospital/src/main/java/com/hospital/entity/Appointment.java:28-46 | saving a changed row is refused iff its notes exceed 500 characters; `createdAt` is kept, `updatedAt` becomes now, nothing else changes |
| AdjustmentRequests.Insert | hospital/src/main/java/com/hospital/entity/ScheduleAdjustmentRequest.java:17-50 | a new request is accepted iff the reason fits in 500 characters; it is PENDING with no response, holds the given fields, and both timestamps are the insert time |
| AdjustmentRequests.Update | hospital/src/main/java/com/hospital/entity/ScheduleAdjustmentRequest.java:30-55 | saving is refused iff the reason or the response exceeds 500 characters; `createdAt` is kept and `updatedAt` becomes now |
| ScheduleService.CreateSchedule | hospital/src/main/java/com/hospital/service/ScheduleServiceImpl.java:34-67 | the error order is end not after start, then truncated hours ≠ 2 (accepted iff the span is 120..179 minutes), then exact duplicate; success iff none applies; the new block, appended, carries the request's doctor, day and times, a fresh id, and capacity 10 when none is given |
| ScheduleService.UpdateSchedule | hospital/src/main/java/com/hospital/service/ScheduleServiceImpl.java:224-236 | fails iff no block has the id; otherwise only that block changes, to the new day and times and to the new capacity when one is given |
| ScheduleService.UpdateSkipsValidation | hospital/src/main/java/com/hospital/service/ScheduleServiceImpl.java:224-236 | an update turns a valid two-hour block into a one-minute block that creation would refuse |
| ScheduleService.DeleteSchedule | hospital/src/main/java/com/hospital/service/ScheduleServiceImpl.java:218-220 | exactly the blocks with another id remain, in their order |
| ScheduleService.ValidateDoctorWeeklySchedule | hospital/src/main/java/com/hospital/service/ScheduleServiceImpl.java:239-242 | true iff two distinct blocks belong to the doctor |
| ScheduleService.CountAtLeastTwo | hospital/src/main/java/com/hospital/service/ScheduleServiceImpl.java:239-242 | the counting form used by the source, "at least 2 blocks", agrees with the existence of two distinct blocks of the doctor |
| ScheduleService.FindScheduleForDateTime | hospital/src/main/java/com/hospital/service/ScheduleServiceImpl.java:274-280 | the result is the first block in store order of that doctor, on the instant's weekday, with start ≤ time < end; none iff no block covers the instant |
| ScheduleService.IsWithinWorkingHours | hospital/src/main/java/com/hospital/service/ScheduleServiceImpl.java:181-194 | true iff some block of the doctor has the instant's weekday and a half-open span [start, end) holding its time of day |
| ScheduleService.WithinWorkingHoursIffResolved | hospital/src/main/java/com/hospital/service/ScheduleServiceImpl.java:181-194 | an instant is within working hours iff some block is found for it |
| ScheduleService.CountInRange | hospital/src/main/java/com/hospital/service/ScheduleServiceImpl.java:282-287 | at most the number of appointments, and zero iff none of the doctor's appointments in the closed range is neither cancelled nor expired |
| ScheduleService.GetCurrentAppointmentCount | hospital/src/main/java/com/hospital/service/ScheduleServiceImpl.java:204-214 | 0 outside working hours; otherwise the number of the doctor's non-cancelled, non-expired appointments from the first covering block's start to its end on that date, both ends included |
| ScheduleService.MaxPatientsAt | hospital/src/main/java/com/hospital/service/ScheduleServiceImpl.java:268-272 | the first covering block's capacity, or 0 outside working hours |
| ScheduleService.IsTimeSlotFull | hospital/src/main/java/com/hospital/service/ScheduleServiceImpl.java:197-201 | false outside working hours; otherwise true iff the first covering block has positive capacity and its occupancy reaches it |
| ScheduleService.ZeroCapacityBlockNeverFull | hospital/src/main/java/com/hospital/service/ScheduleServiceImpl.java:197-201 | the `max > 0` guard that stands for "no block" also makes a zero-capacity block never full |
| ScheduleService.BoundaryCountedByBothBlocks | hospital/src/main/java/com/hospital/service/ScheduleServiceImpl.java:282-287 | with the closed occupancy range, an appointment at the start of a block that follows another directly counts against both blocks |
| ScheduleService.SlotsFrom | hospital/src/main/java/com/hospital/service/ScheduleServiceImpl.java:95-116 | there are ⌊span/30⌋ slots; slot k starts 30·k minutes after the cursor, lasts 30 minutes, ends no later than the block's end, and carries the block's occupancy and capacity, working time, and free iff occupancy < capacity |
| ScheduleService.GetAvailableTimeSlots | hospital/src/main/java/com/hospital/service/ScheduleServiceImpl.java:86-120 | no block on the date's weekday gives no slots |
| ScheduleService.SlotsComeFromBlocks | hospital/src/main/java/com/hospital/service/ScheduleServiceImpl.java:86-120 | every listed slot is one of the 30-minute pieces of one of the doctor's blocks on that date, carrying that block's occupancy and capacity |
| ScheduleService.SlotsOfBlocksLength | hospital/src/main/java/com/hospital/service/ScheduleServiceImpl.java:93-116 | the listing holds, summed over the blocks, ⌊span/30⌋ slots per block |
| ScheduleService.CreatedBlockSlots | hospital/src/main/java/com/hospital/service/ScheduleServiceImpl.java:43-46 | a block that creation accepts (120 to 179 minutes) yields 4 or 5 slots, the first starting at the block's start; an exact two-hour block yields 4, the last ending at the block's end |
| ScheduleService.CreateThenList | hospital/src/main/java/com/hospital/service/ScheduleServiceImpl.java:34-116 | after a block is created, the slot listing of the doctor for a date on its weekday is the earlier listing followed by the new block's slots: 4 or 5 more, the first at the block's start on that date |
| ScheduleService.BlocksOn | hospital/src/main/java/com/hospital/service/ScheduleServiceImpl.java:89 | exactly the doctor's blocks on that weekday |
| ScheduleService.AvailableDatesFrom | hospital/src/main/java/com/hospital/service/ScheduleServiceImpl.java:150-175 | the dates from the cursor to the last date, ascending without repeats, on which some candidate doctor has a block with occupancy below capacity |
| ScheduleService.DoctorsOfDepartment | hospital/src/main/java/com/hospital/service/ScheduleServiceImpl.java:136-146 | exactly the ids of the doctors in the department |
| ScheduleService.GetAvailableDates | hospital/src/main/java/com/hospital/service/ScheduleServiceImpl.java:123-178 | the errors come in order: missing department, missing dates, end before start; otherwise the result is the ascending dates in the range with availability |
| AppointmentService.Merge | hospital/src/main/java/com/hospital/service/AppointmentServiceImpl.java:173-180 | the stored contact value is replaced only by a supplied value with text, and always by one |
| AppointmentService.UpdatePatientContactInfo | hospital/src/main/java/com/hospital/service/AppointmentServiceImpl.java:167-185 | only the first patient with the request's id can change, and it does: its name and phone become the supplied ones when those have text, else stay; no other patient changes |
| AppointmentService.CreateAppointment | hospital/src/main/java/com/hospital/service/AppointmentServiceImpl.java:29-50 | outside working hours comes first, then a full block; success iff within hours, not full, and a valid row; the stored appointment is PENDING with the request's fields and a fresh id; only the appointments and the patients change |
| AppointmentService.BookingFillsItsBlock | hospital/src/main/java/com/hospital/service/AppointmentServiceImpl.java:31-47 | a booking raises the occupancy of the block that admitted it by exactly one, never beyond a positive capacity |
| AppointmentService.Move | hospital/src/main/java/com/hospital/service/AppointmentServiceImpl.java:53-110 | a missing id gives not found; a status with no edge to the target is refused; otherwise exactly that appointment changes, to the target status and notes |
| AppointmentService.CancelAppointment | hospital/src/main/java/com/hospital/service/AppointmentServiceImpl.java:76-86 | succeeds only from PENDING or CONFIRMED; sets CANCELLED and overwrites the notes with the reason |
| AppointmentService.ConfirmAppointment | hospital/src/main/java/com/hospital/service/AppointmentServiceImpl.java:90-98 | succeeds only from PENDING; sets CONFIRMED |
| AppointmentService.CompleteAppointment | hospital/src/main/java/com/hospital/service/AppointmentServiceImpl.java:102-110 | succeeds only from CONFIRMED; sets COMPLETED |
| AppointmentService.LifecycleFollowsGraph | hospital/src/main/java/com/hospital/service/AppointmentServiceImpl.java:76-110 | every successful lifecycle call follows an edge of the lifecycle graph and keeps `createdAt` |
| AppointmentService.CancelFreesOnePlace | hospital/src/main/java/com/hospital/service/AppointmentServiceImpl.java:76-86 | cancelling an appointment that counted in a range lowers that range's count by exactly one |
| AppointmentService.CheckTimeConflict | hospital/src/main/java/com/hospital/service/AppointmentServiceImpl.java:113-116 | a conflict exists iff some block covers the instant, that block has positive capacity, and its occupancy reaches the capacity |
| AppointmentService.OpenStarts | hospital/src/main/java/com/hospital/service/AppointmentServiceImpl.java:121-127 | the start instants of exactly the available working-time slots, in listing order and with their repeats (the filter-then-map of the listing) |
| AppointmentService.GetAvailableStartTimes | hospital/src/main/java/com/hospital/service/AppointmentServiceImpl.java:119-128 | the available working-time slots' starts in listing order; each offered time is within working hours, in a block of the doctor below capacity |
| AppointmentService.OfferedTimesAreWorkingTimes | hospital/src/main/java/com/hospital/service/AppointmentServiceImpl.java:119-128 | every available slot's start lies in a block of the doctor below capacity, so it is within working hours |
| AdjustmentWorkflow.Submit | hospital/src/main/java/com/hospital/service/DoctorDashboardServiceImpl.java:316-324 | a proposal is stored verbatim as PENDING with no response and a fresh id, iff the reason fits the column |
| AdjustmentWorkflow.BlockRequestOf | src/main/java/com/hospital/dto/CreateScheduleRequest.java:22 | the block request copies the request's doctor, day and times, with capacity 10 |
| AdjustmentWorkflow.Undecided | hospital/src/main/java/com/hospital/service/AdminServiceImpl.java:206-211 | a missing request gives not found, one no longer PENDING gives already processed; otherwise the request's position |
| AdjustmentWorkflow.Decide | hospital/src/main/java/com/hospital/service/AdminServiceImpl.java:223-225 | the request gets the decided status and the response, and nothing else changes but `updatedAt` |
| AdjustmentWorkflow.Approve | hospital/src/main/java/com/hospital/service/AdminServiceImpl.java:205-228 | the guards come first, then block creation; a creation error propagates with the request still PENDING; on success the request is APPROVED with the response, and the blocks are those creation returned |
| AdjustmentWorkflow.Reject | hospital/src/main/java/com/hospital/service/AdminServiceImpl.java:306-319 | the same guards; on success the request is REJECTED with the response; no block is touched |
| AdjustmentWorkflow.DecisionIsFinal | hospital/src/main/java/com/hospital/service/AdminServiceImpl.java:209-211 | once approved or rejected, a request refuses both further approval and rejection |
| AdjustmentWorkflow.FindAfterDecision | hospital/src/main/java/com/hospital/service/AdminServiceImpl.java:223-225 | saving a decided request in place keeps it the one found by its id |
| AdminService.ApproveAdjustmentRequest | hospital/src/main/java/com/hospital/service/AdminServiceImpl.java:205-228 | a successful approval leaves the appointments, doctors and users as they were, and records APPROVED with the response |
| AdminService.ApprovalCreatesRequestedBlock | hospital/src/main/java/com/hospital/service/AdminServiceImpl.java:214-220 | an approval appends exactly one block, carrying the request's doctor, day and times with capacity 10; if creation refuses, that error is the result |
| AdminService.RejectAdjustmentRequest | hospital/src/main/java/com/hospital/service/AdminServiceImpl.java:306-319 | a rejection records REJECTED with the response and changes no block |
| AdminService.DeleteDoctor | hospital/src/main/java/com/hospital/service/AdminServiceImpl.java:150-162 | a missing doctor fails; otherwise exactly the doctor's blocks, the doctor and its user account are removed |
| AdminService.ResolveDateRange | hospital/src/main/java/com/hospital/service/AdminServiceImpl.java:431-440 | a missing start is six days before today, a missing end is today; the range is refused iff the end is before the start |
| AdminService.EndOfDay | hospital/src/main/java/com/hospital/service/AdminServiceImpl.java:442-444 | the last instant before the next day's start |
| AdminService.DayRange | hospital/src/main/java/com/hospital/service/AdminServiceImpl.java:442-444 | the closed range from the start to the end of a date holds exactly the instants of that date |
| AdminService.DailyRows | hospital/src/main/java/com/hospital/service/AdminServiceImpl.java:271-289 | one row per date from the first to the last, ascending, each counting that date's appointments |
| AdminService.GetDailyAppointmentStats | hospital/src/main/java/com/hospital/service/AdminServiceImpl.java:265-291 | fails iff the range is refused; otherwise one row per day of the resolved range |
| AdminService.StatusesPartition | hospital/src/main/java/com/hospital/service/AdminServiceImpl.java:276-286 | the five status counts of a window add up to its total |
| AdminService.DailyRowAccounts | hospital/src/main/java/com/hospital/service/AdminServiceImpl.java:276-286 | a day's total is its four reported status counts plus its expired appointments |
| AdminService.BuildDoctorWorkload | hospital/src/main/java/com/hospital/service/AdminServiceImpl.java:403-429 | the row names the doctor; the total counts the doctor's appointments in range, completed its COMPLETED ones and pending its PENDING or CONFIRMED ones; completed plus pending is at most the total |
| AdminService.GetDoctorWorkload | hospital/src/main/java/com/hospital/service/AdminServiceImpl.java:294-302 | fails iff the range is refused; otherwise one workload row per doctor in store order |
| Queue.SortByTime | hospital/src/main/java/com/hospital/service/DoctorDashboardServiceImpl.java:57 | the result is sorted by time and a permutation of the input |
| Queue.BuildQueue | hospital/src/main/java/com/hospital/service/DoctorDashboardServiceImpl.java:47-71 | the queue holds a permutation of exactly the active appointments in the half-open window, sorted by time, with position k at index k |
| DoctorDashboard.ResolveWorkingWindow | hospital/src/main/java/com/hospital/service/DoctorDashboardServiceImpl.java:146-181 | the window contains the instant; it is matched iff the instant is within working hours; when matched it is the first covering block's span on that date, otherwise the 30 minutes from the instant |
| DoctorDashboard.WithDate | hospital/src/main/java/com/hospital/service/DoctorDashboardServiceImpl.java:267-274 | an unmatched window is unchanged; a matched one is moved to the block's span on the given date, with that date's weekday and the same block start and end times |
| DoctorDashboard.WithOwnDateIsIdentity | hospital/src/main/java/com/hospital/service/DoctorDashboardServiceImpl.java:267-274 | moving a resolved window to its own date changes nothing |
| DoctorDashboard.FindClosestForWindow | hospital/src/main/java/com/hospital/service/DoctorDashboardServiceImpl.java:193-219 | none iff no active appointment matches the window's weekday and block times; otherwise a matching one with the least distance to the reference |
| DoctorDashboard.FindBestMatch | hospital/src/main/java/com/hospital/service/DoctorDashboardServiceImpl.java:105-121 | none iff no appointment is active; otherwise the earliest active time at or after the reference, or if there is none the latest active time |
| DoctorDashboard.DetermineSlotStart | hospital/src/main/java/com/hospital/service/DoctorDashboardServiceImpl.java:123-144 | no anchor iff no active appointment; a requested window holding an active appointment anchors at its start; a requested window without one anchors at the block's start time on the date of the nearest matching appointment, and when there is none (always so for an unmatched window), or without a request, falls back to the best match against now |
| DoctorDashboard.DoctorAppointments | hospital/src/main/java/com/hospital/service/DoctorDashboardServiceImpl.java:43 | exactly the doctor's appointments |
| DoctorDashboard.GetAppointmentQueue | hospital/src/main/java/com/hospital/service/DoctorDashboardServiceImpl.java:41-93 | empty when the doctor has no active appointment; otherwise the doctor's active appointments in the anchor's window, sorted by time and numbered from 0 |
| DoctorDashboard.QueueHoldsBestMatch | hospital/src/main/java/com/hospital/service/DoctorDashboardServiceImpl.java:43-58 | without a requested instant, a doctor with an active appointment gets a queue containing the anchor appointment |
| DoctorDashboard.RequestScheduleAdjustment | hospital/src/main/java/com/hospital/service/DoctorDashboardServiceImpl.java:309-338 | the proposal is stored verbatim as PENDING, with no validation beyond the column length |
| DoctorDashboard.SubmittedRequestAwaitsDecision | hospital/src/main/java/com/hospital/service/DoctorDashboardServiceImpl.java:316-324 | a freshly submitted request is found by its id and is open to a decision |
| EmailCodes.GenerateCode | hospital/src/main/java/com/hospital/service/EmailService.java:111-118 | one character per draw, each a decimal digit |
| EmailCodes.GeneratedCodeSpellsDraws | hospital/src/main/java/com/hospital/service/EmailService.java:111-118 | a generated code spells exactly the digits drawn |
| EmailCodes.IssueCode | hospital/src/main/java/com/hospital/service/EmailService.java:41-86 | a too-long e-mail or code is a column violation, and otherwise a failed delivery is a mail error; stored iff the e-mail and code fit their columns and the mail is delivered; the record is unused, with the e-mail, code and type, expiring after the lifetime |
| EmailCodes.VerifyCode | hospital/src/main/java/com/hospital/service/EmailService.java:92-106 | true iff an unused record matches the e-mail, code and type and expires strictly after now; then it is marked used; false changes nothing; several matches make the query fail |
| EmailCodes.VerificationIsOneShot | hospital/src/main/java/com/hospital/service/EmailService.java:100-104 | right after a successful verification the same code no longer verifies |
| EmailCodes.IssuedCodeVerifies | hospital/src/main/java/com/hospital/service/EmailService.java:46-52 | a freshly issued code verifies at any instant within its lifetime, when no older record already matches it |
| EmailCodes.CleanExpiredCodes | hospital/src/main/java/com/hospital/service/EmailService.java:144-147 | exactly the records expiring strictly before now are removed, the rest keep their order |
| EmailCodes.CleaningKeepsVerification | hospital/src/main/java/com/hospital/service/EmailService.java:93-98 | cleaning never changes a verification at the same instant; a record expiring exactly now is kept but does not verify |
| Departments.GetDepartmentById | hospital/src/main/java/com/hospital/service/DepartmentServiceImpl.java:28-32 | fails iff no department has the id; otherwise that department |
| Departments.CreateDepartment | hospital/src/main/java/com/hospital/service/DepartmentServiceImpl.java:36-47 | refused iff a stored name equals the untrimmed given name ignoring case; otherwise a fresh department with the trimmed name and the description as given is appended |
| Departments.UpdateDepartment | hospital/src/main/java/com/hospital/service/DepartmentServiceImpl.java:51-70 | a missing id fails; a rename to a trimmed name that differs from the current one ignoring case, and that another department already has, is refused; the description changes only when given |
| Departments.DeleteDepartment | hospital/src/main/java/com/hospital/service/DepartmentServiceImpl.java:74-78 | a missing id fails; otherwise exactly the other departments remain |
| Departments.UpdateKeepsNamesUnique | hospital/src/main/java/com/hospital/service/DepartmentServiceImpl.java:55-62 | an update keeps department names unique regardless of case |
| Departments.CreateKeepsTrimmedNamesUnique | hospital/src/main/java/com/hospital/service/DepartmentServiceImpl.java:37-42 | creating with a name that has nothing to trim and is not taken (ignoring case) succeeds and keeps names unique regardless of case |
| Departments.PaddedNameSlipsPast | hospital/src/main/java/com/hospital/service/DepartmentServiceImpl.java:37-42 | a name padded with a space passes the untrimmed check and stores a duplicate of an existing name |
| Doctors.ToView | hospital/src/main/java/com/hospital/service/DoctorServiceImpl.java:94-110 | the view copies the doctor's fields; the department columns are empty exactly when the doctor has no department |
| Doctors.GetDoctorById | hospital/src/main/java/com/hospital/service/DoctorServiceImpl.java:28-32 | fails iff no doctor has the id; otherwise the view of such a doctor |
| Doctors.Merge | hospital/src/main/java/com/hospital/service/DoctorServiceImpl.java:57-68 | each supplied field replaces the stored one, the others are kept |
| Doctors.UpdateDoctor | hospital/src/main/java/com/hospital/service/DoctorServiceImpl.java:53-71 | fails iff no doctor has the id; otherwise only that doctor changes, by the merge |
| Doctors.UpdateIsIdempotent | hospital/src/main/java/com/hospital/service/DoctorServiceImpl.java:53-71 | applying the same partial update twice is the same as once; an update supplying nothing changes nothing |
| Doctors.DeleteDoctor | hospital/src/main/java/com/hospital/service/DoctorServiceImpl.java:74-78 | a missing id fails; otherwise exactly the other doctors remain |
| Doctors.SearchMatches | hospital/src/main/java/com/hospital/service/DoctorServiceImpl.java:81-92 | a doctor is kept iff the lower-cased keyword occurs in its lower-cased name, department name or title; the result keeps store order |
| Doctors.SearchDoctors | hospital/src/main/java/com/hospital/service/DoctorServiceImpl.java:81-92 | every result is the view of a matching doctor, and every matching doctor's view is in the result |
| Doctors.EmptyKeywordKeepsNamedDoctors | hospital/src/main/java/com/hospital/service/DoctorServiceImpl.java:84-89 | an empty keyword keeps exactly the doctors with some searchable field present |
| LegacyAdmin.ApproveAdjustmentRequest | src/main/java/com/hospital/service/AdminServiceImpl.java:181-205 | the guards come first, then block creation, whose error propagates; on success the request is APPROVED with the response and the blocks are those created |
| LegacyAdmin.RejectAdjustmentRequest | src/main/java/com/hospital/service/AdminServiceImpl.java:208-222 | the same guards; on success the request is REJECTED with the response, with no block change |
| LegacyAdmin.DeleteDoctor | src/main/java/com/hospital/service/AdminServiceImpl.java:126-139 | a missing doctor fails; otherwise exactly the doctor's blocks, the doctor and its user are removed |
| LegacyAdmin.ChangeEmail | src/main/java/com/hospital/service/AdminServiceImpl.java:89-100 | a null or empty e-mail changes nothing; a missing user fails; a new address already registered is refused; otherwise only that user's e-mail changes |
| LegacyAdmin.ChangePassword | src/main/java/com/hospital/service/AdminServiceImpl.java:103-108 | a null or empty password changes nothing; a missing user fails; otherwise only that user's password changes, to the encoded password |
| LegacyAdmin.UpdateDoctor | src/main/java/com/hospital/service/AdminServiceImpl.java:69-123 | a missing doctor fails; each non-null field replaces the stored one; for a found doctor the update succeeds iff the e-mail change and then the password change succeed, their errors (user not found, e-mail taken) propagate, and on success the users table is the result of both changes |
| LegacyAdmin.UpdateWritesAccount | src/main/java/com/hospital/service/AdminServiceImpl.java:89-108 | after a successful update the doctor's account has the supplied e-mail and the encoded supplied password, and no other account changes |
| LegacyAdmin.UpdateKeepsEmailsUnique | src/main/java/com/hospital/service/AdminServiceImpl.java:89-100 | the update never gives two accounts the same e-mail |
| LegacyAdmin.ChangeEmailKeepsUnique | src/main/java/com/hospital/service/AdminServiceImpl.java:89-100 | an accepted e-mail change keeps addresses unique |
| LegacyAdmin.ChangePasswordKeepsEmails | src/main/java/com/hospital/service/AdminServiceImpl.java:103-108 | a password change leaves every account's e-mail as it was |
| LegacyDashboard.GetAppointmentQueue | src/main/java/com/hospital/service/DoctorDashboardServiceImpl.java:39-92 | exactly the doctor's active appointments with t ≤ time < t + 30, sorted by time, with position k at index k |
| LegacyDashboard.AgreesOffSchedule | src/main/java/com/hospital/service/DoctorDashboardServiceImpl.java:42-56 | off schedule, with an active appointment in the 30 minutes from the requested instant, the current queue equals the older one |
| LegacyDashboard.RequestScheduleAdjustment | src/main/java/com/hospital/service/DoctorDashboardServiceImpl.java:123-158 | the proposal is stored verbatim as PENDING with no response |

## Left out

- Controllers, the exception handler, Spring Security, JWT and `AuthService`: HTTP and library plumbing with no decision logic of their own.
- Registrations and their Excel export, the overview statistics and the per-department statistics: repository counts and formatting.
- Mail text, `@Async` delivery and the cron job: I/O. Delivery success is a parameter of `EmailCodes.IssueCode`.
- The random draws of `generateCode`: these are a parameter.
- The patient name, phone and e-mail lookups in queue and appointment DTOs: display enrichment only. Queue entries carry the appointment itself.
- Concurrency: the check-then-insert race between two bookings and transaction isolation. Each call is one atomic step.
- `AdminServiceImpl.updateDoctor` of the current generation: it mirrors the older service's update, modelled as `LegacyAdmin.UpdateDoctor`, plus a department lookup.
- `createDoctor` and `getAllDoctors` of both administrator services: plain inserts and listing.
- Sub-minute precision. Instants are whole minutes, so `endOfDay`'s last nanosecond becomes the day's last minute.
- `Schedule.java` and the older `ScheduleServiceImpl` are not part of this model. The older approval takes its block creator as a parameter.
- The doctor-scoped range query behind `countAppointmentsInRange` is not declared in the repository interface that is shown. It is taken to include both ends, like the other `...Between` queries.
- `deleteById` and `deleteSchedule` on a missing id: modelled as doing nothing.
- Case folding is ASCII-only. Java's `toLowerCase` and `equalsIgnoreCase` also fold other scripts.
- A null department name on create and a null search keyword: both throw in the source and are not modelled. A null search field is an absent `Option` and never matches, even the empty keyword.
- Null request fields that the model types as always present: the booking's doctor id and time, and the schedule request's doctor, weekday, start and end. Neither controller validates them. In the source, a null booking time throws a NullPointerException when its weekday is read. A null booking doctor id finds no block, so the booking is refused as outside working hours. A null schedule start or end throws a NullPointerException in the first comparison. The model's request types do not admit these inputs.
- The `getDoctorsByDepartment` and `getDoctorByUserId` lookups: simple filters.
- DoctorDashboard.FindClosestForWindow: states that the result is a nearest match, not which of several equally near appointments (the first in list order) is chosen, because the candidates are a filtered copy of the list and tying their positions back to the list's order would need a separate index-tracking argument.
- Queue.SortByTime: states sortedness and permutation, not that equal times keep their input order (stability), because that needs a position-tracking relation between input and output that the permutation statement does not carry.
- Queue.BuildQueue: inherits the same omission of stability from the sort.
