/** Clients of the queue that replay its behaviours; each states
    as its postcondition what a caller can rely on, proved from the
    operations' contracts alone. */
module QueueScenarios {
  import opened QueueTypes
  import opened QueueEntry
  import opened QueueModel

  /** Jobs A (priority 5), B (priority 1) and C (priority 5) pushed in that
      order to one queue are popped as B, A, C; a fourth pop finds nothing. */
  method PriorityThenIdOrder(now: int) returns (pushed: seq<int>, popped: seq<int>, fourth: OrmQueueJobStatus?)
    ensures |pushed| == 3 && popped == [pushed[1], pushed[0], pushed[2]]
    ensures fourth == null
  {
    var m := new QueueJobStatusModel();
    var a := Job("mail", 5, Unlimited, None, []);
    var b := Job("mail", 1, Unlimited, None, []);
    var c := Job("mail", 5, Unlimited, None, []);
    var ra, a' := m.PushJobToQueue(a, None);
    assert ra.Success? && m.entries.Keys == {1};
    var rb, b' := m.PushJobToQueue(b, None);
    assert rb.Success? && m.entries.Keys == {1, 2};
    var rc, c' := m.PushJobToQueue(c, None);
    assert rc.Success? && m.entries.Keys == {1, 2, 3};
    pushed := [a'.jobId.value, b'.jobId.value, c'.jobId.value];

    assert IsFirstEligible(m.entries, "mail", now, 2);
    ghost var before1 := m.entries;
    var p1 := m.PopJobFromQueue("mail", now);
    assert p1 != null by { assert 2 in EligibleIds(before1, "mail", now); }
    FirstEligibleUnique(before1, "mail", now, p1.id, 2);
    assert m.entries.Keys == {1, 2, 3};

    assert IsFirstEligible(m.entries, "mail", now, 1);
    ghost var before2 := m.entries;
    var p2 := m.PopJobFromQueue("mail", now);
    assert p2 != null by { assert 1 in EligibleIds(before2, "mail", now); }
    FirstEligibleUnique(before2, "mail", now, p2.id, 1);

    assert IsFirstEligible(m.entries, "mail", now, 3);
    ghost var before3 := m.entries;
    var p3 := m.PopJobFromQueue("mail", now);
    assert p3 != null by { assert 3 in EligibleIds(before3, "mail", now); }
    FirstEligibleUnique(before3, "mail", now, p3.id, 3);
    popped := [p1.id, p2.id, p3.id];

    assert EligibleIds(m.entries, "mail", now) == {};
    fourth := m.PopJobFromQueue("mail", now);
  }

  /** After a job is finished its status can no longer be looked up. */
  method FinishedJobIsAbsent(m: QueueJobStatusModel, job: Job, now: int) returns (r: OrmQueueJobStatus?)
    requires m.Valid() && job.jobId.Some? && job.jobId.value in m.entries
    modifies m
    ensures r == null
  {
    m.FinishJob(job);
    r := m.GetQueueJobStatus(job.jobId.value, now);
  }

  /** Reporting an error sets status and description; a later report
      without a status only replaces the description. */
  method ErrorThenRetrying(m: QueueJobStatusModel, id: int)
    requires m.Valid() && id in m.entries
    modifies m
    ensures id in m.entries
    ensures m.entries[id].status == Error && m.entries[id].description == "retrying"
  {
    var r1 := m.UpdateStatus(id, "oops", Some(Error));
    assert m.entries[id].status == Error && m.entries[id].description == "oops";
    var r2 := m.UpdateStatus(id, "retrying", None);
  }

  /** A status other than ERROR is refused before the row is looked at, so
      it is refused even for an id with no row, and nothing changes. */
  method RejectedStatusWithoutRow(m: QueueJobStatusModel, id: int) returns (r: Outcome)
    requires m.Valid() && id !in m.entries
    modifies m
    ensures r == Fail(OnlyErrorStatusAllowed) && id !in m.entries
  {
    r := m.UpdateStatus(id, "x", Some(Progress));
  }

  /** A job limited to two reschedules of a row that was never rescheduled
      is rescheduled twice; the third request is refused and the count stays
      at two. */
  method RescheduleUntilLimit(m: QueueJobStatusModel, job: Job, date: Option<int>)
    returns (first: Outcome, second: Outcome, third: Outcome)
    requires m.Valid() && job.jobId.Some? && job.jobId.value in m.entries
    requires job.maxSchedules == Limited(2) && m.entries[job.jobId.value].numSchedules == 0
    modifies m
    ensures first.Pass? && second.Pass? && third == Fail(MaxSchedulesReached)
    ensures job.jobId.value in m.entries && m.entries[job.jobId.value].numSchedules == 2
  {
    first := m.RescheduleJob(job, date);
    second := m.RescheduleJob(job, date);
    third := m.RescheduleJob(job, date);
  }

  /** The job read back from the row of a pushed job is the job the caller
      holds after the push: the pushed job with the row's id. */
  method PushedJobReadBack(m: QueueJobStatusModel, job: Job, now: int) returns (pushed: Job, readBack: Job)
    requires m.Valid() && !IsFalsyName(job.queue)
    modifies m
    ensures readBack == pushed && pushed.jobId.Some?
    ensures readBack == job.(jobId := pushed.jobId)
  {
    var r;
    r, pushed := m.PushJobToQueue(job, None);
    var status := m.GetQueueJobStatus(pushed.jobId.value, now);
    readBack := status.GetQueueJob();
  }

  /** Reading the job of an entry twice gives the same job; the first read
      of a loaded row stamps the row's id on it. */
  method JobIsCached(entry: OrmQueueJobStatus) returns (first: Job, second: Job)
    requires entry.queueJob.None? && entry.data.Serialized?
    modifies entry
    ensures first == second && first.jobId == Some(entry.id)
  {
    first := entry.GetQueueJob();
    second := entry.GetQueueJob();
  }

  /** Setting the slot leaves the slots alone and is read back, and the
      other way round. */
  method SlotAndSlots(entry: OrmQueueJobStatus, slot: int, slots: int) returns (readSlot: Option<int>, readSlots: Option<int>)
    modifies entry
    ensures readSlot == Some(slot) && readSlots == Some(slots)
  {
    entry.SetSlot(slot);
    entry.SetSlots(slots);
    readSlot := entry.GetSlot();
    readSlots := entry.GetSlots();
  }
}
