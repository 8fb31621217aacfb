/** The queue engine: one table of queue entries, kept as a map from id to
    row, with the id the store hands out next. The store's filtered, ordered
    and counted queries are the sets and orders defined first; the current
    time is the parameter `now`. */
module QueueModel {
  import opened QueueTypes
  import opened QueueEntry
  import opened Ordering

  /** The ids of all rows of `queue`, whatever their status or schedule. */
  function QueueIds(entries: map<int, Entry>, queue: string): set<int>
  {
    set id | id in entries && entries[id].queue == queue
  }

  /** The ids of the rows of `queue` a worker may take at `now`. */
  function EligibleIds(entries: map<int, Entry>, queue: string, now: int): set<int>
  {
    set id | id in entries && entries[id].queue == queue && Eligible(entries[id], now)
  }

  /** The ids below `id` of the waiting rows of `queue`; the schedule is not
      looked at. */
  function WaitingBefore(entries: map<int, Entry>, queue: string, id: int): set<int>
  {
    set i | i in entries && entries[i].queue == queue && entries[i].status == Waiting && i < id
  }

  /** The ids among `ids` of the rows of `queue`. */
  function QueueIdsIn(entries: map<int, Entry>, ids: set<int>, queue: string): set<int>
  {
    set id | id in ids && id in entries && entries[id].queue == queue
  }

  /** Dequeue order: lower priority first, then lower id. */
  predicate Precedes(entries: map<int, Entry>, a: int, b: int)
  {
    a in entries && b in entries &&
    (entries[a].priority < entries[b].priority ||
     (entries[a].priority == entries[b].priority && a < b))
  }

  /** `id` is the row a dequeue of `queue` at `now` takes. */
  predicate IsFirstEligible(entries: map<int, Entry>, queue: string, now: int, id: int)
  {
    id in EligibleIds(entries, queue, now) &&
    forall other :: other in EligibleIds(entries, queue, now) && other != id ==> Precedes(entries, id, other)
  }

  /** The total number of slots reported for row `id`: the rows of its queue
      a worker may take now. */
  function SlotsOf(entries: map<int, Entry>, id: int, now: int): nat
    requires id in entries
  {
    |EligibleIds(entries, entries[id].queue, now)|
  }

  /** The slot reported for row `id`: one more than the number of waiting
      rows of its queue with a smaller id, scheduled or not. */
  function SlotOf(entries: map<int, Entry>, id: int): nat
    requires id in entries
  {
    |WaitingBefore(entries, entries[id].queue, id)| + 1
  }

  /** One line of the queue status report. */
  datatype QueueCount = QueueCount(queue: string, count: nat)

  /** A dequeue takes exactly one row: the first eligible row is unique. */
  lemma FirstEligibleUnique(entries: map<int, Entry>, queue: string, now: int, a: int, b: int)
    requires IsFirstEligible(entries, queue, now, a) && IsFirstEligible(entries, queue, now, b)
    ensures a == b
  {
  }

  /** The dequeue never takes a row that is not waiting or is scheduled later than `now`. */
  lemma FirstEligibleIsDue(entries: map<int, Entry>, queue: string, now: int, id: int)
    requires IsFirstEligible(entries, queue, now, id)
    ensures id in entries && entries[id].queue == queue && entries[id].status == Waiting
    ensures entries[id].dateScheduled.None? || entries[id].dateScheduled.value <= now
  {
  }

  lemma {:induction false} SubsetCardinality(a: set<int>, b: set<int>)
    requires a <= b
    ensures |a| <= |b|
    decreases |b|
  {
    if a != {} {
      var x := Element(a);
      SubsetCardinality(a - {x}, b - {x});
    }
  }

  /** When every waiting row before `id` is due, the slot of an eligible row
      is within the number of slots. */
  lemma SlotWithinSlots(entries: map<int, Entry>, id: int, now: int)
    requires id in entries && Eligible(entries[id], now)
    requires forall i :: i in WaitingBefore(entries, entries[id].queue, id) ==> Eligible(entries[i], now)
    ensures 1 <= SlotOf(entries, id) <= SlotsOf(entries, id, now)
  {
    var q := entries[id].queue;
    var before := WaitingBefore(entries, q, id);
    assert id !in before;
    SubsetCardinality(before + {id}, EligibleIds(entries, q, now));
  }

  /** A row scheduled in the future still counts towards the slot of a later
      row but not towards the slots, so the slot can exceed the slots: row 2
      reports slot 2 of 1 while row 1 waits for its date. */
  lemma SlotMayExceedSlots()
    ensures
      var early := Entry("mail", NoData, Waiting, 0, Some(100), 0, "");
      var due := Entry("mail", NoData, Waiting, 0, None, 0, "");
      var entries := map[1 := early, 2 := due];
      SlotOf(entries, 2) == 2 && SlotsOf(entries, 2, 0) == 1
  {
    var early := Entry("mail", NoData, Waiting, 0, Some(100), 0, "");
    var due := Entry("mail", NoData, Waiting, 0, None, 0, "");
    var entries := map[1 := early, 2 := due];
    assert WaitingBefore(entries, "mail", 2) == {1};
    assert EligibleIds(entries, "mail", 0) == {2};
  }

  /** Adding one row to the rows counted so far adds it to its own queue's
      count only. */
  lemma QueueIdsInAdd(entries: map<int, Entry>, done: set<int>, id: int, queue: string)
    requires id in entries && id !in done
    ensures QueueIdsIn(entries, done + {id}, queue) ==
      if entries[id].queue == queue then QueueIdsIn(entries, done, queue) + {id}
      else QueueIdsIn(entries, done, queue)
    ensures entries[id].queue == queue ==>
      |QueueIdsIn(entries, done + {id}, queue)| == |QueueIdsIn(entries, done, queue)| + 1
  {
  }

  /** The eligible rows at `now`, counted per queue while visiting them in
      whatever order the store returns them: the first row of a queue sets
      its count to 1, each further row adds 1. */
  method CountEligiblePerQueue(entries: map<int, Entry>, now: int) returns (counts: map<string, nat>)
    ensures forall q :: q in counts <==> EligibleIds(entries, q, now) != {}
    ensures forall q :: q in counts ==> counts[q] == |EligibleIds(entries, q, now)|
  {
    var rows := set id | id in entries && Eligible(entries[id], now);
    counts := map[];
    var done: set<int> := {};
    var rest := rows;
    while rest != {}
      invariant rest <= rows && done == rows - rest
      invariant forall q :: q in counts <==> QueueIdsIn(entries, done, q) != {}
      invariant forall q :: q in counts ==> counts[q] == |QueueIdsIn(entries, done, q)|
      decreases rest
    {
      var id := Pick(rest);
      var q := entries[id].queue;
      if q !in counts {
        counts := counts[q := 1];
      } else {
        counts := counts[q := counts[q] + 1];
      }
      forall q' ensures QueueIdsIn(entries, done + {id}, q') ==
        if entries[id].queue == q' then QueueIdsIn(entries, done, q') + {id}
        else QueueIdsIn(entries, done, q')
      {
        QueueIdsInAdd(entries, done, id, q');
      }
      QueueIdsInAdd(entries, done, id, q);
      done := done + {id};
      rest := rest - {id};
    }
    assert done == rows;
    forall q ensures QueueIdsIn(entries, rows, q) == EligibleIds(entries, q, now) {
    }
  }

  /** The rows `ids`, in that order, as entry objects: the result of a query. */
  method LoadRows(entries: map<int, Entry>, ids: seq<int>) returns (statuses: seq<OrmQueueJobStatus>)
    requires forall i :: 0 <= i < |ids| ==> ids[i] in entries
    ensures |statuses| == |ids|
    ensures forall i :: 0 <= i < |ids| ==>
      fresh(statuses[i]) && statuses[i].id == ids[i] && statuses[i].Row() == entries[ids[i]] &&
      statuses[i].queueJob == None
    ensures forall i, j :: 0 <= i < j < |ids| ==> statuses[i] != statuses[j]
  {
    statuses := [];
    var k := 0;
    while k < |ids|
      invariant 0 <= k <= |ids| && |statuses| == k
      invariant forall i :: 0 <= i < k ==>
        fresh(statuses[i]) && statuses[i].id == ids[i] && statuses[i].Row() == entries[ids[i]] &&
        statuses[i].queueJob == None
      invariant forall i, j :: 0 <= i < j < k ==> statuses[i] != statuses[j]
    {
      var status := new OrmQueueJobStatus.Load(ids[k], entries[ids[k]]);
      statuses := statuses + [status];
      k := k + 1;
    }
  }

  class QueueJobStatusModel {
    var entries: map<int, Entry>
    var nextId: int

    /** Ids are positive and below the next id to hand out, and every row
        holds a serialized job. */
    ghost predicate Valid()
      reads this
    {
      1 <= nextId &&
      forall id :: id in entries ==> 1 <= id < nextId && entries[id].data.Serialized?
    }

    constructor ()
      ensures Valid() && entries == map[] && nextId == 1
    {
      entries := map[];
      nextId := 1;
    }

    /** The queues with a row a worker may take now, in ascending order of
        their names, each with the number of such rows. */
    method GetQueueStatus(now: int) returns (status: seq<QueueCount>)
      ensures forall i, j :: 0 <= i < j < |status| ==> StringLess(status[i].queue, status[j].queue)
      ensures forall i :: 0 <= i < |status| ==>
        status[i].count == |EligibleIds(entries, status[i].queue, now)| && status[i].count >= 1
      ensures forall q :: EligibleIds(entries, q, now) != {} ==>
        exists i :: 0 <= i < |status| && status[i].queue == q
    {
      var counts := CountEligiblePerQueue(entries, now);
      // ksort
      StringLessOrders(counts.Keys);
      var queues := SortAscending(counts.Keys, StringLess);
      status := [];
      var k := 0;
      while k < |queues|
        invariant 0 <= k <= |queues| && |status| == k
        invariant forall i :: 0 <= i < k ==> status[i] == QueueCount(queues[i], counts[queues[i]])
      {
        status := status + [QueueCount(queues[k], counts[queues[k]])];
        k := k + 1;
      }
      forall q | EligibleIds(entries, q, now) != {}
        ensures exists i :: 0 <= i < |status| && status[i].queue == q
      {
        assert q in counts;
        assert q in queues;
        var i :| 0 <= i < |queues| && queues[i] == q;
        assert status[i].queue == q;
      }
    }

    /** The rows of `queue` in ascending id order, whatever their status or
        schedule; the i-th row gets slot i + 1 and every row gets slots N,
        the number of rows. */
    method GetQueueJobStatuses(queue: string) returns (statuses: seq<OrmQueueJobStatus>)
      ensures |statuses| == |QueueIds(entries, queue)|
      ensures forall id :: id in QueueIds(entries, queue) <==> exists i :: 0 <= i < |statuses| && statuses[i].id == id
      ensures forall i, j :: 0 <= i < j < |statuses| ==> statuses[i].id < statuses[j].id
      ensures forall i :: 0 <= i < |statuses| ==>
        fresh(statuses[i]) && statuses[i].id in entries &&
        statuses[i].Row() == entries[statuses[i].id] && statuses[i].queueJob == None &&
        statuses[i].slot == Some(i + 1) && statuses[i].slots == Some(|statuses|)
    {
      // the query: rows of the queue, ORDER BY id ASC
      var ids := SortAscending(QueueIds(entries, queue), (a: int, b: int) => a < b);
      assert forall i :: 0 <= i < |ids| ==> ids[i] in ids && ids[i] in entries;
      statuses := LoadRows(entries, ids);
      var slots := |statuses|;
      var slot := 1;
      var k := 0;
      while k < |statuses|
        invariant 0 <= k <= |statuses| && slot == k + 1
        invariant forall i :: 0 <= i < |statuses| ==>
          fresh(statuses[i]) && statuses[i].id == ids[i] && statuses[i].Row() == entries[ids[i]] &&
          statuses[i].queueJob == None
        invariant forall i :: 0 <= i < k ==> statuses[i].slot == Some(i + 1) && statuses[i].slots == Some(slots)
      {
        statuses[k].SetSlot(slot);
        statuses[k].SetSlots(slots);
        slot := slot + 1;
        k := k + 1;
      }
      forall id | id in QueueIds(entries, queue)
        ensures exists i :: 0 <= i < |statuses| && statuses[i].id == id
      {
        var i :| 0 <= i < |ids| && ids[i] == id;
        assert statuses[i].id == id;
      }
    }

    /** The row with id `id` with its slot and slots filled in, or null when
        there is no such row (the job is finished). */
    method GetQueueJobStatus(id: int, now: int) returns (r: OrmQueueJobStatus?)
      ensures r == null <==> id !in entries
      ensures r != null ==>
        fresh(r) && r.id == id && r.Row() == entries[id] && r.queueJob == None &&
        r.slots == Some(SlotsOf(entries, id, now)) && r.slot == Some(SlotOf(entries, id))
    {
      if id !in entries {
        return null;
      }
      r := new OrmQueueJobStatus.Load(id, entries[id]);
      r.SetSlots(|EligibleIds(entries, r.queue, now)|);
      r.SetSlot(|WaitingBefore(entries, r.queue, id)| + 1);
    }

    /** Adds `job` to its queue, waiting, with the job's priority and the
        given schedule; the job handed back carries the new row's id. A job
        without a queue name is refused and nothing changes. */
    method PushJobToQueue(job: Job, dateScheduled: Option<int>) returns (r: Result<OrmQueueJobStatus>, pushed: Job)
      requires Valid()
      modifies this
      ensures Valid()
      ensures r.Failure? <==> IsFalsyName(job.queue)
      ensures r.Failure? ==>
        r.error == NoQueueSet && pushed == job && entries == old(entries) && nextId == old(nextId)
      ensures r.Success? ==>
        var id := old(nextId);
        id !in old(entries) && nextId == id + 1 && id in entries &&
        entries == old(entries)[id := entries[id]] &&
        entries[id].queue == job.queue && entries[id].data == Serialize(job) &&
        entries[id].status == Waiting && entries[id].priority == job.priority &&
        entries[id].dateScheduled == dateScheduled && entries[id].numSchedules == 0 &&
        entries[id].description == "" &&
        pushed == job.(jobId := Some(id)) &&
        fresh(r.value) && r.value.id == id && r.value.Row() == entries[id] &&
        r.value.queueJob == Some(job) && r.value.slot == None && r.value.slots == None
    {
      if IsFalsyName(job.queue) {
        return Failure(NoQueueSet), job;
      }
      var entry := new OrmQueueJobStatus.Blank();
      entry.SetQueueJob(job);
      entry.status := Waiting;
      entry.dateScheduled := dateScheduled;
      entry.priority := job.priority;
      // save: the store assigns the id
      entry.id := nextId;
      entries := entries[nextId := entry.Row()];
      nextId := nextId + 1;
      pushed := job.(jobId := Some(entry.id));
      r := Success(entry);
    }

    /** The row a dequeue of `queue` takes at `now`, or none when no row of
        the queue may be taken. */
    method FindFirstEligible(queue: string, now: int) returns (first: Option<int>)
      ensures first.None? <==> EligibleIds(entries, queue, now) == {}
      ensures first.Some? ==> IsFirstEligible(entries, queue, now, first.value)
    {
      var candidates := EligibleIds(entries, queue, now);
      if candidates == {} {
        return None;
      }
      var rows := entries;
      var id := PickLeast(candidates, (a: int, b: int) => Precedes(rows, a, b));
      first := Some(id);
    }

    /** Takes the first eligible row of `queue` (lowest priority, then
        lowest id) and marks it in progress; null when there is none. */
    method PopJobFromQueue(queue: string, now: int) returns (r: OrmQueueJobStatus?)
      requires Valid()
      modifies this
      ensures Valid() && nextId == old(nextId)
      ensures r == null <==> EligibleIds(old(entries), queue, now) == {}
      ensures r == null ==> entries == old(entries)
      ensures r != null ==>
        fresh(r) && IsFirstEligible(old(entries), queue, now, r.id) &&
        entries == old(entries)[r.id := old(entries)[r.id].(status := Progress)] &&
        r.Row() == entries[r.id] && r.queueJob == None
    {
      var first := FindFirstEligible(queue, now);
      if first.None? {
        return null;
      }
      var id := first.value;
      r := new OrmQueueJobStatus.Load(id, entries[id]);
      r.status := Progress;
      entries := entries[id := r.Row()];
    }

    /** Sets the description of row `id` and, when a status is given, sets
        it; only the error status may be given. A rejected status is refused
        before the row is looked at, so that call needs no existing row. */
    method UpdateStatus(id: int, description: string, status: Option<Status>) returns (r: Outcome)
      requires Valid() && ((status.None? || status.value == Error) ==> id in entries)
      modifies this
      ensures Valid() && nextId == old(nextId)
      ensures r.Fail? <==> (status.Some? && status.value != Error)
      ensures r.Fail? ==> r.error == OnlyErrorStatusAllowed && entries == old(entries)
      ensures r.Pass? ==>
        entries == old(entries)[id := old(entries)[id].(
          description := description,
          status := if status.Some? then Error else old(entries)[id].status)]
    {
      if status.Some? && status.value != Error {
        return Fail(OnlyErrorStatusAllowed);
      }
      var entry := new OrmQueueJobStatus.Load(id, entries[id]);
      entry.description := description;
      if status.Some? {
        entry.status := status.value;
      }
      entries := entries[id := entry.Row()];
      r := Pass;
    }

    /** Puts the row of `job` back to waiting at `dateScheduled` and counts
        the reschedule, unless the job's limit is reached. */
    method RescheduleJob(job: Job, dateScheduled: Option<int>) returns (r: Outcome)
      requires Valid() && job.jobId.Some? && job.jobId.value in entries
      modifies this
      ensures Valid() && nextId == old(nextId)
      ensures r.Pass? <==> MayReschedule(job.maxSchedules, old(entries)[job.jobId.value].numSchedules)
      ensures r.Fail? ==> r.error == MaxSchedulesReached && entries == old(entries)
      ensures r.Pass? ==>
        Rescheduled(old(entries)[job.jobId.value], job.maxSchedules, dateScheduled).Success? &&
        entries == old(entries)[job.jobId.value :=
          Rescheduled(old(entries)[job.jobId.value], job.maxSchedules, dateScheduled).value]
    {
      var entry := new OrmQueueJobStatus.Load(job.jobId.value, entries[job.jobId.value]);
      var canReschedule := false;
      if job.maxSchedules.Unlimited? || job.maxSchedules.limit > entry.numSchedules {
        canReschedule := true;
      }
      if !canReschedule {
        return Fail(MaxSchedulesReached);
      }
      entry.status := Waiting;
      entry.dateScheduled := dateScheduled;
      entry.numSchedules := entry.numSchedules + 1;
      entries := entries[entry.id := entry.Row()];
      r := Pass;
    }

    /** Deletes the row of `job`; every other row stays as it was. */
    method FinishJob(job: Job)
      requires Valid() && job.jobId.Some? && job.jobId.value in entries
      modifies this
      ensures Valid() && nextId == old(nextId)
      ensures entries == old(entries) - {job.jobId.value}
    {
      entries := entries - {job.jobId.value};
    }
  }
}
