/** `ScheduleServiceImpl`: a doctor's weekly working blocks, their 30-minute
    slots, occupancy against capacity, and the dates that still have room. */
module ScheduleService {
  import opened Base
  import opened Calendar
  import opened Seqs
  import opened Appointments
  import opened Directory

  /** Capacity of a block created without one. */
  const DefaultMaxPatients: int := 10
  /** Width of a bookable slot, in minutes. */
  const SlotMinutes: int := 30

  /** A `Schedule` row: one weekly recurring working block. */
  datatype Block = Block(
    id: int,
    doctorId: int,
    day: DayOfWeek,
    start: TimeOfDay,
    end: TimeOfDay,
    maxPatients: int)

  /** `CreateScheduleRequest`. */
  datatype ScheduleRequest = ScheduleRequest(
    doctorId: int,
    day: DayOfWeek,
    start: TimeOfDay,
    end: TimeOfDay,
    maxPatients: Option<int>)

  /** One entry of the slot listing (`TimeSlotDTO`). */
  datatype TimeSlot = TimeSlot(
    start: int,
    end: int,
    currentPatients: int,
    maxPatients: int,
    available: bool,
    isWorkingTime: bool)


  // ---------------------------------------------------------------------
  // Creating, changing and removing blocks
  // ---------------------------------------------------------------------

  /** `Duration.between(start, end).toHours()`: whole hours, truncated. */
  function WholeHours(start: TimeOfDay, end: TimeOfDay): int
    requires start < end
  {
    (end - start) / MinutesPerHour
  }

  /** The doctor already has a block with exactly this day, start and end. */
  predicate IsDuplicate(blocks: seq<Block>, req: ScheduleRequest) {
    exists i | 0 <= i < |blocks| ::
      && blocks[i].doctorId == req.doctorId && blocks[i].day == req.day
      && blocks[i].start == req.start && blocks[i].end == req.end
  }

  /** `createSchedule`: refuse an empty or reversed span, then a span whose
      truncated hour count is not 2, then an exact duplicate; otherwise append
      the new block. */
  function CreateSchedule(blocks: seq<Block>, req: ScheduleRequest): (r: Result<(seq<Block>, Block)>)
    ensures req.end <= req.start ==> r == Err(EndNotAfterStart)
    ensures req.start < req.end && !(120 <= req.end - req.start < 180) ==> r == Err(NotTwoHours)
    ensures (req.start < req.end && 120 <= req.end - req.start < 180 && IsDuplicate(blocks, req))
              ==> r == Err(DuplicateSchedule)
    ensures r.Ok? <==> req.start < req.end && 120 <= req.end - req.start < 180 && !IsDuplicate(blocks, req)
    ensures r.Ok? ==> var (blocks', b) := r.value;
      && blocks' == blocks + [b]
      && b.doctorId == req.doctorId && b.day == req.day
      && b.start == req.start && b.end == req.end
      && b.maxPatients == (if req.maxPatients.Some? then req.maxPatients.value else DefaultMaxPatients)
      && forall i :: 0 <= i < |blocks| ==> blocks[i].id != b.id
  {
    if req.end <= req.start then Err(EndNotAfterStart)
    else if WholeHours(req.start, req.end) != 2 then Err(NotTwoHours)
    else if IsDuplicate(blocks, req) then Err(DuplicateSchedule)
    else
      var b := Block(FreshId(Map(blocks, (x: Block) => x.id)), req.doctorId, req.day, req.start, req.end,
                     req.maxPatients.GetOr(DefaultMaxPatients));
      Ok((blocks + [b], b))
  }

  /** `updateSchedule`: overwrite day, start and end, and the capacity when
      one is given. The doctor is kept, and none of the creation checks run. */
  function UpdateSchedule(blocks: seq<Block>, id: int, req: ScheduleRequest): (r: Result<(seq<Block>, Block)>)
    ensures r.Err? <==> forall i :: 0 <= i < |blocks| ==> blocks[i].id != id
    ensures r.Err? ==> r.error == ScheduleNotFound
    ensures r.Ok? ==> exists i :: (0 <= i < |blocks| && blocks[i].id == id
      && r.value.0 == blocks[i := r.value.1]
      && r.value.1 == blocks[i].(day := req.day, start := req.start, end := req.end,
                                 maxPatients := req.maxPatients.GetOr(blocks[i].maxPatients)))
  {
    match FirstIndex(blocks, (b: Block) => b.id == id)
    case None => Err(ScheduleNotFound)
    case Some(i) =>
      var b := blocks[i].(day := req.day, start := req.start, end := req.end,
                          maxPatients := req.maxPatients.GetOr(blocks[i].maxPatients));
      Ok((blocks[i := b], b))
  }

  /** An update can leave a block that creation would have refused: here a
      valid 09:00-11:00 block becomes a one-minute 09:00-09:01 block. */
  lemma UpdateSkipsValidation()
    ensures var blocks := [Block(1, 7, Monday, 540, 660, 10)];
            var req := ScheduleRequest(7, Monday, 540, 541, None);
            && CreateSchedule(blocks, req) == Err(NotTwoHours)
            && UpdateSchedule(blocks, 1, req).Ok?
            && UpdateSchedule(blocks, 1, req).value.1.end - UpdateSchedule(blocks, 1, req).value.1.start == 1
  {
    var blocks := [Block(1, 7, Monday, 540, 660, 10)];
    var req := ScheduleRequest(7, Monday, 540, 541, None);
    assert FirstIndex(blocks, (b: Block) => b.id == 1) == Some(0);
  }

  /** `deleteSchedule`: remove the block with this id, if any. */
  function DeleteSchedule(blocks: seq<Block>, id: int): (r: seq<Block>)
    ensures forall i :: 0 <= i < |r| ==> r[i].id != id
    ensures forall i :: 0 <= i < |blocks| && blocks[i].id != id ==> blocks[i] in r
    ensures IsSubsequence(r, blocks)
  {
    FilterIsSubsequence(blocks, (b: Block) => b.id != id);
    Filter(blocks, (b: Block) => b.id != id)
  }

  predicate OfDoctor(b: Block, doctor: int) {
    b.doctorId == doctor
  }

  /** `validateDoctorWeeklySchedule`: the doctor has at least two blocks. */
  function ValidateDoctorWeeklySchedule(blocks: seq<Block>, doctor: int): (r: bool)
    ensures r <==> exists i, j :: 0 <= i < j < |blocks| && OfDoctor(blocks[i], doctor) && OfDoctor(blocks[j], doctor)
  {
    CountAtLeastTwo(blocks, doctor);
    Count(blocks, (b: Block) => OfDoctor(b, doctor)) >= 2
  }

  lemma CountAtLeastTwo(blocks: seq<Block>, doctor: int)
    ensures Count(blocks, (b: Block) => OfDoctor(b, doctor)) >= 2
            <==> exists i, j :: 0 <= i < j < |blocks| && OfDoctor(blocks[i], doctor) && OfDoctor(blocks[j], doctor)
  {
    if exists i, j :: 0 <= i < j < |blocks| && OfDoctor(blocks[i], doctor) && OfDoctor(blocks[j], doctor) {
      var i, j :| 0 <= i < j < |blocks| && OfDoctor(blocks[i], doctor) && OfDoctor(blocks[j], doctor);
      PairCountsTwo(blocks, doctor, i, j);
    }
    if Count(blocks, (b: Block) => OfDoctor(b, doctor)) >= 2 {
      TwoGivesPair(blocks, doctor);
    }
  }

  lemma {:induction false} PairCountsTwo(blocks: seq<Block>, doctor: int, i: int, j: int)
    requires 0 <= i < j < |blocks| && OfDoctor(blocks[i], doctor) && OfDoctor(blocks[j], doctor)
    ensures Count(blocks, (b: Block) => OfDoctor(b, doctor)) >= 2
    decreases |blocks|
  {
    var t := blocks[1..];
    assert Count(blocks, (b: Block) => OfDoctor(b, doctor))
        >= Count(t, (b: Block) => OfDoctor(b, doctor));
    if i > 0 {
      assert OfDoctor(t[i - 1], doctor) && OfDoctor(t[j - 1], doctor);
      PairCountsTwo(t, doctor, i - 1, j - 1);
    } else {
      assert OfDoctor(t[j - 1], doctor);
      CountAtLeastOne(t, doctor);
    }
  }

  lemma {:induction false} TwoGivesPair(blocks: seq<Block>, doctor: int)
    requires Count(blocks, (b: Block) => OfDoctor(b, doctor)) >= 2
    ensures exists i, j :: 0 <= i < j < |blocks| && OfDoctor(blocks[i], doctor) && OfDoctor(blocks[j], doctor)
    decreases |blocks|
  {
    var t := blocks[1..];
    if OfDoctor(blocks[0], doctor) {
      assert Count(t, (b: Block) => OfDoctor(b, doctor)) >= 1;
      CountAtLeastOne(t, doctor);
      var j :| 0 <= j < |t| && OfDoctor(t[j], doctor);
      assert OfDoctor(blocks[j + 1], doctor);
    } else {
      assert Count(t, (b: Block) => OfDoctor(b, doctor)) >= 2;
      TwoGivesPair(t, doctor);
      var i, j :| 0 <= i < j < |t| && OfDoctor(t[i], doctor) && OfDoctor(t[j], doctor);
      assert OfDoctor(blocks[i + 1], doctor) && OfDoctor(blocks[j + 1], doctor);
    }
  }

  lemma {:induction false} CountAtLeastOne(blocks: seq<Block>, doctor: int)
    ensures Count(blocks, (b: Block) => OfDoctor(b, doctor)) >= 1
            <==> exists j :: 0 <= j < |blocks| && OfDoctor(blocks[j], doctor)
    decreases |blocks|
  {
    if |blocks| > 0 {
      CountAtLeastOne(blocks[1..], doctor);
      if exists j :: 0 <= j < |blocks| && OfDoctor(blocks[j], doctor) {
        var j :| 0 <= j < |blocks| && OfDoctor(blocks[j], doctor);
        if j > 0 {
          assert OfDoctor(blocks[1..][j - 1], doctor);
        }
      }
      if Count(blocks[1..], (b: Block) => OfDoctor(b, doctor)) >= 1 {
        var j :| 0 <= j < |blocks[1..]| && OfDoctor(blocks[1..][j], doctor);
        assert OfDoctor(blocks[j + 1], doctor);
      }
    }
  }

  // ---------------------------------------------------------------------
  // Which block a time falls in, and how full it is
  // ---------------------------------------------------------------------

  /** The block belongs to the doctor, falls on the instant's weekday, and
      its half-open span `[start, end)` holds the instant's time of day. */
  predicate Covers(b: Block, doctor: int, t: int) {
    && b.doctorId == doctor
    && b.day == DayOfWeekOf(DateOf(t))
    && b.start <= TimeOf(t) < b.end
  }

  /** `blocks[i]` is the first block in store order that covers `t`. */
  predicate FirstCovering(blocks: seq<Block>, doctor: int, t: int, i: int) {
    && 0 <= i < |blocks|
    && Covers(blocks[i], doctor, t)
    && forall j :: 0 <= j < i ==> !Covers(blocks[j], doctor, t)
  }

  /** `findScheduleForDateTime`: the doctor's blocks on that weekday whose
      span holds the time, first one wins. */
  function FindScheduleForDateTime(blocks: seq<Block>, doctor: int, t: int): (r: Option<Block>)
    ensures r.Some? ==> exists i :: FirstCovering(blocks, doctor, t, i) && blocks[i] == r.value
    ensures r.None? <==> forall i :: 0 <= i < |blocks| ==> !Covers(blocks[i], doctor, t)
  {
    match FirstIndex(blocks, (b: Block) => Covers(b, doctor, t))
    case None => None
    case Some(i) => assert FirstCovering(blocks, doctor, t, i); Some(blocks[i])
  }

  /** `isWithinWorkingHours`: scan the blocks and answer true at the first
      one whose weekday matches and whose half-open span holds the time. */
  function IsWithinWorkingHours(blocks: seq<Block>, doctor: int, t: int): (r: bool)
    ensures r <==> exists i :: 0 <= i < |blocks| && Covers(blocks[i], doctor, t)
  {
    if |blocks| == 0 then false
    else if Covers(blocks[0], doctor, t) then true
    else
      var rest := IsWithinWorkingHours(blocks[1..], doctor, t);
      assert forall i :: 1 <= i < |blocks| ==> blocks[i] == blocks[1..][i - 1];
      rest
  }

  /** Working hours are exactly the instants some block resolves to. */
  lemma WithinWorkingHoursIffResolved(blocks: seq<Block>, doctor: int, t: int)
    ensures IsWithinWorkingHours(blocks, doctor, t) <==> FindScheduleForDateTime(blocks, doctor, t).Some?
  {
  }

  /** An occupancy count covers the appointments of `doctor` whose time lies
      in the CLOSED range `[lo, hi]` (a `...Between` query) and that are
      neither cancelled nor expired. */
  predicate Occupies(a: Appointment, doctor: int, lo: int, hi: int) {
    a.doctorId == doctor && lo <= a.time <= hi && IsActive(a)
  }

  /** `countAppointmentsInRange`. */
  function CountInRange(appts: seq<Appointment>, doctor: int, lo: int, hi: int): (r: nat)
    ensures r <= |appts|
    ensures r == 0 <==> forall i :: 0 <= i < |appts| ==> !Occupies(appts[i], doctor, lo, hi)
  {
    var f := Filter(appts, (a: Appointment) => Occupies(a, doctor, lo, hi));
    assert |f| > 0 ==> Occupies(f[0], doctor, lo, hi);
    Count(appts, (a: Appointment) => Occupies(a, doctor, lo, hi))
  }

  /** Occupancy of a block on a given date: from the block's start to its
      end on that date, both ends included. */
  function BlockOccupancy(appts: seq<Appointment>, doctor: int, date: int, b: Block): nat {
    CountInRange(appts, doctor, At(date, b.start), At(date, b.end))
  }

  /** `getCurrentAppointmentCount`: the occupancy of the first covering
      block on the instant's date, or 0 outside working hours. */
  function GetCurrentAppointmentCount(blocks: seq<Block>, appts: seq<Appointment>, doctor: int, t: int): (r: nat)
    ensures !IsWithinWorkingHours(blocks, doctor, t) ==> r == 0
    ensures forall i :: FirstCovering(blocks, doctor, t, i) ==> r == BlockOccupancy(appts, doctor, DateOf(t), blocks[i])
  {
    match FindScheduleForDateTime(blocks, doctor, t)
    case None => 0
    case Some(b) => BlockOccupancy(appts, doctor, DateOf(t), b)
  }

  /** `getMaxPatientsForTimeSlot`: the first covering block's capacity, or 0. */
  function MaxPatientsAt(blocks: seq<Block>, doctor: int, t: int): (r: int)
    ensures !IsWithinWorkingHours(blocks, doctor, t) ==> r == 0
    ensures forall i :: FirstCovering(blocks, doctor, t, i) ==> r == blocks[i].maxPatients
  {
    match FindScheduleForDateTime(blocks, doctor, t)
    case None => 0
    case Some(b) => b.maxPatients
  }

  /** `isTimeSlotFull`: outside every block the capacity reads as 0 and the
      answer is "not full"; otherwise the first covering block is full when
      its capacity is positive and its occupancy has reached it. */
  function IsTimeSlotFull(blocks: seq<Block>, appts: seq<Appointment>, doctor: int, t: int): (r: bool)
    ensures !IsWithinWorkingHours(blocks, doctor, t) ==> !r
    ensures forall i :: FirstCovering(blocks, doctor, t, i) ==>
              (r <==> blocks[i].maxPatients > 0
                      && BlockOccupancy(appts, doctor, DateOf(t), blocks[i]) >= blocks[i].maxPatients)
  {
    var current := GetCurrentAppointmentCount(blocks, appts, doctor, t);
    var max := MaxPatientsAt(blocks, doctor, t);
    max > 0 && current >= max
  }

  /** The `max > 0` guard that stands for "no block" also fires for a block
      whose capacity is 0 (capacities are not validated): such a block is
      never full, however many appointments it holds. */
  lemma ZeroCapacityBlockNeverFull(blocks: seq<Block>, appts: seq<Appointment>, doctor: int, t: int, i: int)
    requires FirstCovering(blocks, doctor, t, i) && blocks[i].maxPatients <= 0
    ensures !IsTimeSlotFull(blocks, appts, doctor, t)
  {
  }

  /** The occupancy range is closed while block membership is half-open: an
      active appointment exactly at the shared boundary of two back-to-back
      blocks counts towards both. */
  lemma BoundaryCountedByBothBlocks(appts: seq<Appointment>, doctor: int, date: int,
                                    early: Block, late: Block, i: int)
    requires early.start < early.end == late.start < late.end
    requires 0 <= i < |appts| && appts[i].doctorId == doctor && IsActive(appts[i])
    requires appts[i].time == At(date, late.start)
    ensures BlockOccupancy(appts, doctor, date, early) >= 1
    ensures BlockOccupancy(appts, doctor, date, late) >= 1
  {
    var p := (a: Appointment) => Occupies(a, doctor, At(date, early.start), At(date, early.end));
    var q := (a: Appointment) => Occupies(a, doctor, At(date, late.start), At(date, late.end));
    SameDateOrder(date, early.start, early.end);
    SameDateOrder(date, late.start, late.end);
    assert p(appts[i]);
    assert appts[i] in Filter(appts, p);
    assert q(appts[i]);
    assert appts[i] in Filter(appts, q);
  }

  // ---------------------------------------------------------------------
  // Slots
  // ---------------------------------------------------------------------

  /** Number of whole 30-minute slots between two instants (none if the end
      is not after the start). */
  function SlotCount(from: int, to: int): nat {
    if from <= to then (to - from) / SlotMinutes else 0
  }

  /** The inner loop of `getAvailableTimeSlots`: 30-minute slots from `cur`
      while a whole slot still fits before `end`, each stamped with the
      block's occupancy and capacity. */
  function SlotsFrom(cur: int, end: int, count: int, cap: int): (r: seq<TimeSlot>)
    ensures |r| == SlotCount(cur, end)
    ensures forall k :: 0 <= k < |r| ==>
              r[k] == TimeSlot(cur + SlotMinutes * k, cur + SlotMinutes * k + SlotMinutes, count, cap, count < cap, true)
    ensures forall k :: 0 <= k < |r| ==> r[k].end <= end
    decreases end - cur
  {
    if cur < end && cur + SlotMinutes <= end then
      [TimeSlot(cur, cur + SlotMinutes, count, cap, count < cap, true)] + SlotsFrom(cur + SlotMinutes, end, count, cap)
    else []
  }

  /** The slots of one block on one date. */
  function BlockSlots(appts: seq<Appointment>, doctor: int, date: int, b: Block): seq<TimeSlot> {
    SlotsFrom(At(date, b.start), At(date, b.end), BlockOccupancy(appts, doctor, date, b), b.maxPatients)
  }

  /** `findByDoctorIdAndDayOfWeek`. */
  function BlocksOn(blocks: seq<Block>, doctor: int, day: DayOfWeek): (r: seq<Block>)
    ensures forall i :: 0 <= i < |r| ==> r[i] in blocks && r[i].doctorId == doctor && r[i].day == day
    ensures forall i :: 0 <= i < |blocks| && blocks[i].doctorId == doctor && blocks[i].day == day ==> blocks[i] in r
  {
    Filter(blocks, (b: Block) => b.doctorId == doctor && b.day == day)
  }

  function SlotsOfBlocks(ds: seq<Block>, appts: seq<Appointment>, doctor: int, date: int): seq<TimeSlot> {
    if |ds| == 0 then [] else BlockSlots(appts, doctor, date, ds[0]) + SlotsOfBlocks(ds[1..], appts, doctor, date)
  }

  /** `getAvailableTimeSlots` (schedule side): every block of the doctor on
      the date's weekday, in store order, cut into its slots. */
  function GetAvailableTimeSlots(blocks: seq<Block>, appts: seq<Appointment>, doctor: int, date: int): (r: seq<TimeSlot>)
    ensures |BlocksOn(blocks, doctor, DayOfWeekOf(date))| == 0 ==> r == []
  {
    SlotsOfBlocks(BlocksOn(blocks, doctor, DayOfWeekOf(date)), appts, doctor, date)
  }

  /** The slot at position `s` was cut from block `b` on `date`. */
  predicate SlotOfBlock(s: TimeSlot, appts: seq<Appointment>, doctor: int, date: int, b: Block) {
    var occ := BlockOccupancy(appts, doctor, date, b);
    && At(date, b.start) <= s.start
    && (s.start - At(date, b.start)) % SlotMinutes == 0
    && s.end == s.start + SlotMinutes
    && s.end <= At(date, b.end)
    && s.currentPatients == occ
    && s.maxPatients == b.maxPatients
    && s.isWorkingTime
    && (s.available <==> occ < b.maxPatients)
  }

  /** Every listed slot is a 30-minute piece of one of the doctor's blocks on
      that weekday, aligned to the block's start, inside its span, and
      carries that block's occupancy, capacity and availability. */
  lemma {:induction false} SlotsComeFromBlocks(ds: seq<Block>, appts: seq<Appointment>, doctor: int, date: int)
    ensures forall i :: 0 <= i < |SlotsOfBlocks(ds, appts, doctor, date)| ==>
              exists j :: 0 <= j < |ds| && SlotOfBlock(SlotsOfBlocks(ds, appts, doctor, date)[i], appts, doctor, date, ds[j])
    decreases |ds|
  {
    if |ds| > 0 {
      SlotsComeFromBlocks(ds[1..], appts, doctor, date);
      var head := BlockSlots(appts, doctor, date, ds[0]);
      var tail := SlotsOfBlocks(ds[1..], appts, doctor, date);
      var r := SlotsOfBlocks(ds, appts, doctor, date);
      assert r == head + tail;
      forall i | 0 <= i < |r|
        ensures exists j :: 0 <= j < |ds| && SlotOfBlock(r[i], appts, doctor, date, ds[j])
      {
        if i < |head| {
          assert r[i] == head[i];
          assert SlotOfBlock(r[i], appts, doctor, date, ds[0]);
        } else {
          assert r[i] == tail[i - |head|];
          var j :| 0 <= j < |ds[1..]| && SlotOfBlock(tail[i - |head|], appts, doctor, date, ds[1..][j]);
          assert ds[1..][j] == ds[j + 1];
        }
      }
    } else {
      assert SlotsOfBlocks(ds, appts, doctor, date) == [];
    }
  }

  /** The listing holds, over all blocks, as many slots as there are whole
      30-minute pieces in the blocks' spans. */
  lemma {:induction false} SlotsOfBlocksLength(ds: seq<Block>, appts: seq<Appointment>, doctor: int, date: int)
    ensures |SlotsOfBlocks(ds, appts, doctor, date)| == TotalSlotCount(ds)
    decreases |ds|
  {
    if |ds| > 0 {
      SlotsOfBlocksLength(ds[1..], appts, doctor, date);
    }
  }

  function TotalSlotCount(ds: seq<Block>): nat {
    if |ds| == 0 then 0 else SlotCount(ds[0].start, ds[0].end) + TotalSlotCount(ds[1..])
  }

  /** A block accepted by `createSchedule` (a span of 120 to 179 minutes)
      yields 4 or 5 slots, the first at the block start; a block of exactly two
      hours yields exactly 4, the last ending at the block end. */
  lemma CreatedBlockSlots(appts: seq<Appointment>, doctor: int, date: int, b: Block)
    requires b.start < b.end && 120 <= b.end - b.start < 180
    ensures var r := BlockSlots(appts, doctor, date, b);
            && (|r| == 4 || |r| == 5)
            && r[0].start == At(date, b.start)
            && (b.end - b.start == 120 ==> |r| == 4 && r[3].end == At(date, b.end))
  {
  }

  /** One more block at the end of the store joins the end of its
      weekday's selection when it belongs to the doctor on that day. */
  lemma BlocksOnAppend(blocks: seq<Block>, x: Block, doctor: int, day: DayOfWeek)
    requires x.doctorId == doctor && x.day == day
    ensures BlocksOn(blocks + [x], doctor, day) == BlocksOn(blocks, doctor, day) + [x]
  {
    FilterAppend(blocks, [x], (b: Block) => b.doctorId == doctor && b.day == day);
  }

  /** Listing one more block appends that block's slots. */
  lemma {:induction false} SlotsOfBlocksAppend(ds: seq<Block>, x: Block, appts: seq<Appointment>, doctor: int, date: int)
    ensures SlotsOfBlocks(ds + [x], appts, doctor, date)
            == SlotsOfBlocks(ds, appts, doctor, date) + BlockSlots(appts, doctor, date, x)
    decreases |ds|
  {
    if |ds| == 0 {
      assert ds + [x] == [x];
      assert [x][1..] == [];
    } else {
      assert (ds + [x])[0] == ds[0];
      assert (ds + [x])[1..] == ds[1..] + [x];
      SlotsOfBlocksAppend(ds[1..], x, appts, doctor, date);
    }
  }

  /** Creating a block and then listing a date on its weekday gives the
      earlier listing followed by the new block's slots: 4 or 5 more, the
      first at the block's start on that date. */
  lemma CreateThenList(blocks: seq<Block>, appts: seq<Appointment>, req: ScheduleRequest, date: int)
    requires CreateSchedule(blocks, req).Ok?
    requires DayOfWeekOf(date) == req.day
    ensures var (blocks', b) := CreateSchedule(blocks, req).value;
            var before := GetAvailableTimeSlots(blocks, appts, req.doctorId, date);
            var after := GetAvailableTimeSlots(blocks', appts, req.doctorId, date);
            && after == before + BlockSlots(appts, req.doctorId, date, b)
            && (|after| == |before| + 4 || |after| == |before| + 5)
            && after[|before|].start == At(date, req.start)
  {
    var (blocks', b) := CreateSchedule(blocks, req).value;
    BlocksOnAppend(blocks, b, req.doctorId, req.day);
    SlotsOfBlocksAppend(BlocksOn(blocks, req.doctorId, req.day), b, appts, req.doctorId, date);
    CreatedBlockSlots(appts, req.doctorId, date, b);
  }

  // ---------------------------------------------------------------------
  // Dates with availability
  // ---------------------------------------------------------------------

  /** Some candidate doctor has a block on the date's weekday whose
      occupancy on that date is below its capacity. */
  predicate HasAvailability(blocks: seq<Block>, appts: seq<Appointment>, doctorIds: seq<int>, date: int) {
    exists k, i | 0 <= k < |doctorIds| && 0 <= i < |blocks| ::
      && blocks[i].doctorId == doctorIds[k]
      && blocks[i].day == DayOfWeekOf(date)
      && BlockOccupancy(appts, doctorIds[k], date, blocks[i]) < blocks[i].maxPatients
  }

  /** The cursor loop of `getAvailableDates`, from `cursor` to `last`. */
  function AvailableDatesFrom(blocks: seq<Block>, appts: seq<Appointment>, doctorIds: seq<int>,
                              cursor: int, last: int): (r: seq<int>)
    ensures forall i, j :: 0 <= i < j < |r| ==> r[i] < r[j]
    ensures forall i :: 0 <= i < |r| ==> cursor <= r[i] <= last
    ensures forall d :: d in r <==> cursor <= d <= last && HasAvailability(blocks, appts, doctorIds, d)
    decreases last - cursor
  {
    if cursor > last then []
    else
      var rest := AvailableDatesFrom(blocks, appts, doctorIds, cursor + 1, last);
      if HasAvailability(blocks, appts, doctorIds, cursor) then [cursor] + rest else rest
  }

  predicate InDepartment(d: Doctor, departmentId: int) {
    d.department.Some? && d.department.value.id == departmentId
  }

  /** `findByDepartment_Id` mapped to ids: the ids of the doctors in a
      department, in store order. */
  function DoctorsOfDepartment(doctors: seq<Doctor>, departmentId: int): (r: seq<int>)
    ensures |r| <= |doctors|
    ensures forall x :: x in r <==> exists i :: 0 <= i < |doctors| && doctors[i].id == x && InDepartment(doctors[i], departmentId)
  {
    if |doctors| == 0 then []
    else
      var rest := DoctorsOfDepartment(doctors[1..], departmentId);
      assert forall i :: 1 <= i < |doctors| ==> doctors[i] == doctors[1..][i - 1];
      if InDepartment(doctors[0], departmentId) then [doctors[0].id] + rest else rest
  }

  /** `getAvailableDates`: a department is required, then both dates, then an
      end not before the start. The candidates are the given doctor, or else
      every doctor of the department; the answer lists, ascending and without
      repeats, each date in the range on which a candidate has room. */
  function GetAvailableDates(blocks: seq<Block>, appts: seq<Appointment>, doctors: seq<Doctor>,
                             departmentId: Option<int>, doctorId: Option<int>,
                             startDate: Option<int>, endDate: Option<int>): (r: Result<seq<int>>)
    ensures departmentId.None? ==> r == Err(DepartmentIdRequired)
    ensures departmentId.Some? && (startDate.None? || endDate.None?) ==> r == Err(DateRangeRequired)
    ensures (departmentId.Some? && startDate.Some? && endDate.Some? && endDate.value < startDate.value)
              ==> r == Err(EndDateBeforeStart)
    ensures r.Ok? ==> departmentId.Some? && startDate.Some? && endDate.Some? && startDate.value <= endDate.value
    ensures r.Ok? ==> forall i, j :: 0 <= i < j < |r.value| ==> r.value[i] < r.value[j]
    ensures r.Ok? ==> forall d :: d in r.value <==>
              && startDate.value <= d <= endDate.value
              && HasAvailability(blocks, appts,
                   if doctorId.Some? then [doctorId.value] else DoctorsOfDepartment(doctors, departmentId.value), d)
  {
    if departmentId.None? then Err(DepartmentIdRequired)
    else if startDate.None? || endDate.None? then Err(DateRangeRequired)
    else if endDate.value < startDate.value then Err(EndDateBeforeStart)
    else
      var doctorIds := if doctorId.Some? then [doctorId.value] else DoctorsOfDepartment(doctors, departmentId.value);
      if |doctorIds| == 0 then Ok([])
      else Ok(AvailableDatesFrom(blocks, appts, doctorIds, startDate.value, endDate.value))
  }
}
