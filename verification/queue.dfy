/** A doctor's waiting queue for one time window: the active appointments
    inside it, ordered by time and numbered from 0 (how many are ahead). Both
    generations of the dashboard build it this way; they differ only in the
    window. */
module Queue {
  import opened Seqs
  import opened Appointments

  /** An `AppointmentQueueDTO`: the appointment's own fields, and its place. */
  datatype QueueEntry = QueueEntry(appointment: Appointment, position: int)

  /** Inside the half-open window `[lo, hi)` and neither cancelled nor expired. */
  predicate Waiting(a: Appointment, lo: int, hi: int) {
    lo <= a.time < hi && IsActive(a)
  }

  predicate SortedByTime(s: seq<Appointment>) {
    forall i, j :: 0 <= i < j < |s| ==> s[i].time <= s[j].time
  }

  /** Put `x` in front of the first later appointment. */
  function InsertByTime(x: Appointment, s: seq<Appointment>): (r: seq<Appointment>)
    requires SortedByTime(s)
    ensures SortedByTime(r)
    ensures multiset(r) == multiset(s) + multiset{x}
    ensures forall k :: 0 <= k < |r| ==> r[k] == x || r[k] in s
  {
    if |s| == 0 then [x]
    else if x.time <= s[0].time then
      ConsSorted(x, s);
      [x] + s
    else
      var rest := InsertByTime(x, s[1..]);
      assert s == [s[0]] + s[1..];
      AfterHead(x, s, rest);
      ConsSorted(s[0], rest);
      [s[0]] + rest
  }

  /** Putting an appointment no later than every element in front keeps a
      list sorted. */
  lemma ConsSorted(y: Appointment, rest: seq<Appointment>)
    requires SortedByTime(rest)
    requires forall k :: 0 <= k < |rest| ==> y.time <= rest[k].time
    ensures SortedByTime([y] + rest)
  {
    var r := [y] + rest;
    forall i, j | 0 <= i < j < |r| ensures r[i].time <= r[j].time {
      assert r[j] == rest[j - 1];
      if i > 0 {
        assert r[i] == rest[i - 1];
      }
    }
  }

  /** Every element of an insertion into the tail of a sorted list is `x`
      or from the tail, so it is no earlier than the head when `x` is not. */
  lemma AfterHead(x: Appointment, s: seq<Appointment>, rest: seq<Appointment>)
    requires SortedByTime(s) && |s| > 0 && s[0].time < x.time
    requires forall k :: 0 <= k < |rest| ==> rest[k] == x || rest[k] in s[1..]
    ensures forall k :: 0 <= k < |rest| ==> s[0].time <= rest[k].time
  {
    forall k | 0 <= k < |rest| ensures s[0].time <= rest[k].time {
      if rest[k] != x {
        var j :| 0 <= j < |s[1..]| && s[1..][j] == rest[k];
        assert s[j + 1] == rest[k];
      }
    }
  }

  /** `sorted(Comparator.comparing(Appointment::getAppointmentTime))`. */
  function SortByTime(s: seq<Appointment>): (r: seq<Appointment>)
    ensures SortedByTime(r)
    ensures multiset(r) == multiset(s)
    ensures |r| == |s|
  {
    if |s| == 0 then []
    else
      assert s == [s[0]] + s[1..];
      InsertByTime(s[0], SortByTime(s[1..]))
  }

  function Members(q: seq<QueueEntry>): (r: seq<Appointment>)
    ensures |r| == |q|
    ensures forall k :: 0 <= k < |q| ==> r[k] == q[k].appointment
  {
    if |q| == 0 then [] else [q[0].appointment] + Members(q[1..])
  }

  /** Number a sorted list from 0. */
  function Number(s: seq<Appointment>): (r: seq<QueueEntry>)
    ensures |r| == |s|
    ensures forall k :: 0 <= k < |s| ==> r[k] == QueueEntry(s[k], k)
  {
    seq(|s|, k requires 0 <= k < |s| => QueueEntry(s[k], k))
  }

  /** Lists holding the same multiset hold the same elements. */
  lemma SameElements(a: seq<Appointment>, b: seq<Appointment>)
    requires multiset(a) == multiset(b)
    ensures forall x :: x in a <==> x in b
  {
    forall x ensures x in a <==> x in b {
      assert x in a <==> x in multiset(a);
      assert x in b <==> x in multiset(b);
    }
  }

  /** The waiting appointments, in their stored order. */
  function WaitingIn(appts: seq<Appointment>, lo: int, hi: int): (r: seq<Appointment>)
    ensures forall x :: x in r ==> x in appts && Waiting(x, lo, hi)
    ensures forall i :: 0 <= i < |appts| && Waiting(appts[i], lo, hi) ==> appts[i] in r
  {
    Filter(appts, (a: Appointment) => Waiting(a, lo, hi))
  }

  lemma MembersOfNumber(s: seq<Appointment>)
    ensures Members(Number(s)) == s
  {
  }

  /** The queue of the window `[lo, hi)` over a doctor's appointments:
      exactly the waiting ones, each once, in time order, positions 0, 1, 2…. */
  function BuildQueue(appts: seq<Appointment>, lo: int, hi: int): (r: seq<QueueEntry>)
    ensures multiset(Members(r)) == multiset(WaitingIn(appts, lo, hi))
    ensures SortedByTime(Members(r))
    ensures forall k :: 0 <= k < |r| ==> r[k].position == k
    ensures forall k :: 0 <= k < |r| ==> r[k].appointment in appts && Waiting(r[k].appointment, lo, hi)
    ensures forall i :: 0 <= i < |appts| && Waiting(appts[i], lo, hi) ==> appts[i] in Members(r)
  {
    var sorted := SortByTime(WaitingIn(appts, lo, hi));
    MembersOfNumber(sorted);
    HoldsExactlyWaiting(appts, lo, hi, sorted);
    Number(sorted)
  }

  /** A rearrangement of the waiting appointments holds each waiting
      appointment and nothing else. */
  lemma HoldsExactlyWaiting(appts: seq<Appointment>, lo: int, hi: int, s: seq<Appointment>)
    requires multiset(s) == multiset(WaitingIn(appts, lo, hi))
    ensures forall k :: 0 <= k < |s| ==> s[k] in appts && Waiting(s[k], lo, hi)
    ensures forall i :: 0 <= i < |appts| && Waiting(appts[i], lo, hi) ==> appts[i] in s
  {
    var waiting := WaitingIn(appts, lo, hi);
    SameElements(s, waiting);
    assert forall k :: 0 <= k < |s| ==> s[k] in waiting;
  }
}
