/** The life of a schedule-adjustment request, shared by both generations of
    the admin and dashboard services: a doctor submits it, an administrator
    approves it (creating the block it asks for) or rejects it, once. */
module AdjustmentWorkflow {
  import opened Base
  import opened Calendar
  import opened Seqs
  import opened AdjustmentRequests
  import opened ScheduleService

  /** How the calling service creates a block. */
  type BlockCreator = (seq<Block>, ScheduleRequest) -> Result<(seq<Block>, Block)>


  /** `requestScheduleAdjustment`: store the doctor's proposal as given,
      PENDING, with no check of the times. */
  function Submit(requests: seq<AdjustmentRequest>, doctorId: int, day: DayOfWeek,
                  start: TimeOfDay, end: TimeOfDay, reason: Option<string>, now: int)
    : (r: Result<(seq<AdjustmentRequest>, AdjustmentRequest)>)
    ensures r.Ok? <==> TextFits(reason)
    ensures r.Ok? ==> var (requests', q) := r.value;
      && requests' == requests + [q]
      && q.doctorId == doctorId && q.day == day && q.start == start && q.end == end
      && q.reason == reason && q.status == Pending && q.adminResponse.None?
      && (forall i :: 0 <= i < |requests| ==> requests[i].id != q.id)
  {
    var q :- Insert(FreshId(Map(requests, (x: AdjustmentRequest) => x.id)), doctorId, day, start, end, reason, now);
    Ok((requests + [q], q))
  }

  /** The request with this id, first in store order. */
  function FindRequest(requests: seq<AdjustmentRequest>, id: int): (r: Option<nat>)
    ensures r.Some? ==> r.value < |requests| && requests[r.value].id == id
    ensures r.Some? ==> forall j :: 0 <= j < r.value ==> requests[j].id != id
    ensures r.None? <==> forall j :: 0 <= j < |requests| ==> requests[j].id != id
  {
    FirstIndex(requests, (q: AdjustmentRequest) => q.id == id)
  }

  /** The block an approved request asks for. The request object is built
      field by field, so its capacity keeps the field's initial value, 10. */
  function BlockRequestOf(q: AdjustmentRequest): (r: ScheduleRequest)
    ensures r.doctorId == q.doctorId && r.day == q.day && r.start == q.start && r.end == q.end
    ensures r.maxPatients == Some(DefaultMaxPatients)
  {
    ScheduleRequest(q.doctorId, q.day, q.start, q.end, Some(DefaultMaxPatients))
  }

  /** The guards approve and reject share: the request exists and is still
      PENDING. */
  function Undecided(requests: seq<AdjustmentRequest>, id: int): (r: Result<nat>)
    ensures FindRequest(requests, id).None? ==> r == Err(RequestNotFound)
    ensures (FindRequest(requests, id).Some? && requests[FindRequest(requests, id).value].status != Pending)
              ==> r == Err(RequestAlreadyProcessed)
    ensures r.Ok? <==> FindRequest(requests, id).Some? && requests[FindRequest(requests, id).value].status == Pending
    ensures r.Ok? ==> r.value == FindRequest(requests, id).value
  {
    match FindRequest(requests, id)
    case None => Err(RequestNotFound)
    case Some(i) => if requests[i].status != Pending then Err(RequestAlreadyProcessed) else Ok(i)
  }

  /** Record a decision on the pending request at `i`. */
  function Decide(requests: seq<AdjustmentRequest>, i: nat, status: RequestStatus,
                  response: Option<string>, now: int)
    : (r: Result<(seq<AdjustmentRequest>, AdjustmentRequest)>)
    requires i < |requests|
    ensures r.Ok? <==> TextFits(requests[i].reason) && TextFits(response)
    ensures r.Ok? ==> r.value.1 == requests[i].(status := status, adminResponse := response, updatedAt := now)
                      && r.value.0 == requests[i := r.value.1]
  {
    var q :- Update(requests[i].(status := status, adminResponse := response), now);
    Ok((requests[i := q], q))
  }

  /** `approveAdjustmentRequest`: after the guards, create the requested
      block and only then mark the request APPROVED with the response. Any
      failure, including the block's, leaves blocks and requests unchanged. */
  function Approve(blocks: seq<Block>, requests: seq<AdjustmentRequest>, id: int,
                   response: Option<string>, now: int, create: BlockCreator)
    : (r: Result<(seq<Block>, seq<AdjustmentRequest>, AdjustmentRequest)>)
    ensures Undecided(requests, id).Err? ==> r == Err(Undecided(requests, id).error)
    ensures (Undecided(requests, id).Ok? && create(blocks, BlockRequestOf(requests[Undecided(requests, id).value])).Err?)
              ==> r == Err(create(blocks, BlockRequestOf(requests[Undecided(requests, id).value])).error)
    ensures r.Ok? <==>
              && Undecided(requests, id).Ok?
              && create(blocks, BlockRequestOf(requests[Undecided(requests, id).value])).Ok?
              && TextFits(requests[Undecided(requests, id).value].reason) && TextFits(response)
    ensures r.Ok? ==>
              var i := Undecided(requests, id).value;
              && r.value.0 == create(blocks, BlockRequestOf(requests[i])).value.0
              && r.value.2 == requests[i].(status := Approved, adminResponse := response, updatedAt := now)
              && r.value.1 == requests[i := r.value.2]
  {
    var i :- Undecided(requests, id);
    var (blocks', _) :- create(blocks, BlockRequestOf(requests[i]));
    var (requests', q) :- Decide(requests, i, Approved, response, now);
    Ok((blocks', requests', q))
  }

  /** `rejectAdjustmentRequest`: the same guards, then REJECTED with the
      response; no block is created. */
  function Reject(requests: seq<AdjustmentRequest>, id: int, response: Option<string>, now: int)
    : (r: Result<(seq<AdjustmentRequest>, AdjustmentRequest)>)
    ensures Undecided(requests, id).Err? ==> r == Err(Undecided(requests, id).error)
    ensures r.Ok? <==>
              Undecided(requests, id).Ok? && TextFits(requests[Undecided(requests, id).value].reason) && TextFits(response)
    ensures r.Ok? ==>
              var i := Undecided(requests, id).value;
              && r.value.1 == requests[i].(status := Rejected, adminResponse := response, updatedAt := now)
              && r.value.0 == requests[i := r.value.1]
  {
    var i :- Undecided(requests, id);
    Decide(requests, i, Rejected, response, now)
  }

  /** A decision is final: once a request has been approved or rejected,
      every further approve or reject of it is refused as already processed. */
  lemma DecisionIsFinal(blocks: seq<Block>, requests: seq<AdjustmentRequest>, id: int,
                        response: Option<string>, now: int, create: BlockCreator,
                        response2: Option<string>, now2: int)
    ensures Approve(blocks, requests, id, response, now, create).Ok? ==>
              var (blocks', requests', _) := Approve(blocks, requests, id, response, now, create).value;
              && Approve(blocks', requests', id, response2, now2, create) == Err(RequestAlreadyProcessed)
              && Reject(requests', id, response2, now2) == Err(RequestAlreadyProcessed)
    ensures Reject(requests, id, response, now).Ok? ==>
              var (requests', _) := Reject(requests, id, response, now).value;
              && Approve(blocks, requests', id, response2, now2, create) == Err(RequestAlreadyProcessed)
              && Reject(requests', id, response2, now2) == Err(RequestAlreadyProcessed)
  {
    if Approve(blocks, requests, id, response, now, create).Ok? {
      var (_, requests', _) := Approve(blocks, requests, id, response, now, create).value;
      FindAfterDecision(requests, Undecided(requests, id).value, requests', id);
    }
    if Reject(requests, id, response, now).Ok? {
      var (requests', _) := Reject(requests, id, response, now).value;
      FindAfterDecision(requests, Undecided(requests, id).value, requests', id);
    }
  }

  /** Replacing a request by one with the same id keeps where it is found. */
  lemma FindAfterDecision(requests: seq<AdjustmentRequest>, i: nat, requests': seq<AdjustmentRequest>, id: int)
    requires FindRequest(requests, id) == Some(i)
    requires |requests'| == |requests| && requests'[i].id == id
    requires forall j :: 0 <= j < |requests| && j != i ==> requests'[j] == requests[j]
    ensures FindRequest(requests', id) == Some(i)
  {
    assert forall j :: 0 <= j < i ==> requests'[j].id != id;
  }
}
