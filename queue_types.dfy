/** Values shared by the queue: the job descriptor handed in by callers, the
    persisted row of a queue entry, its status, and the rules that decide
    whether a row can be dequeued or rescheduled. */
module QueueTypes {

  datatype Option<+T> = None | Some(value: T)

  /** The `QueueException`s the queue throws, one per cause. */
  datatype QueueError =
    | NoQueueSet            // push of a job without a queue name
    | OnlyErrorStatusAllowed // updateStatus with a status other than error
    | MaxSchedulesReached   // rescheduleJob past the job's limit

  datatype Result<+T> = Success(value: T) | Failure(error: QueueError)

  datatype Outcome = Pass | Fail(error: QueueError)

  /** The status column of a queue entry. */
  datatype Status = Waiting | Progress | Error

  /** How often a job may be rescheduled: `true` (no limit) or a number. */
  datatype MaxSchedules = Unlimited | Limited(limit: int)

  /** A queue job as the queue sees it. `state` stands for the properties of
      the job's own class, which only the serializer looks at. Jobs are
      values: the clone taken on push is the value itself. */
  datatype Job = Job(
    queue: string,
    priority: int,
    maxSchedules: MaxSchedules,
    jobId: Option<int>,
    state: seq<int>)

  /** The data column: nothing yet, or a serialized job. */
  datatype Data = NoData | Serialized(job: Job)

  function Serialize(job: Job): Data
  {
    Serialized(job)
  }

  function Unserialize(d: Data): Job
    requires d.Serialized?
  {
    d.job
  }

  /** Unserializing what was serialized gives back the same job. */
  lemma UnserializeSerialize(job: Job)
    ensures Serialize(job).Serialized? && Unserialize(Serialize(job)) == job
  {
  }

  /** One persisted row of the queue table, without its id (the id is the
      key under which the store keeps it). */
  datatype Entry = Entry(
    queue: string,
    data: Data,
    status: Status,
    priority: int,
    dateScheduled: Option<int>,
    numSchedules: nat,
    description: string)

  /** A row a worker may take at time `now`: waiting, and either not
      scheduled or scheduled no later than `now`. */
  predicate Eligible(e: Entry, now: int)
  {
    e.status == Waiting && (e.dateScheduled.None? || e.dateScheduled.value <= now)
  }

  /** PHP treats the strings "" and "0" as false, so `!$queueJob->getQueue()`
      holds for exactly these two queue names. */
  predicate IsFalsyName(queue: string)
  {
    queue == "" || queue == "0"
  }

  /** The reschedule guard: the limit is `true`, or it is larger than the
      number of times the row was scheduled again already. */
  predicate MayReschedule(max: MaxSchedules, numSchedules: nat)
  {
    max.Unlimited? || max.limit > numSchedules
  }

  /** The row after a reschedule request at `dateScheduled`. */
  function Rescheduled(e: Entry, max: MaxSchedules, dateScheduled: Option<int>): (r: Result<Entry>)
    ensures r.Success? <==> (max.Unlimited? || max.limit > e.numSchedules)
    ensures r.Failure? ==> r.error == MaxSchedulesReached
    ensures r.Success? ==>
      r.value.status == Waiting &&
      r.value.dateScheduled == dateScheduled &&
      r.value.numSchedules == e.numSchedules + 1
    ensures r.Success? ==>
      r.value.queue == e.queue && r.value.data == e.data &&
      r.value.priority == e.priority && r.value.description == e.description
  {
    if MayReschedule(max, e.numSchedules) then
      Success(e.(status := Waiting, dateScheduled := dateScheduled, numSchedules := e.numSchedules + 1))
    else
      Failure(MaxSchedulesReached)
  }

  /** Reschedule requests at each of `dates` in turn, as a worker that keeps
      retrying does; a refused request leaves the row as it was. Gives the
      number of accepted requests and the final row. */
  function RescheduleEach(e: Entry, max: MaxSchedules, dates: seq<Option<int>>): (nat, Entry)
    decreases |dates|
  {
    if dates == [] then (0, e)
    else
      match Rescheduled(e, max, dates[0])
      case Success(next) =>
        var (n, last) := RescheduleEach(next, max, dates[1..]);
        (n + 1, last)
      case Failure(_) =>
        RescheduleEach(e, max, dates[1..])
  }

  function Min(a: int, b: int): int
  {
    if a <= b then a else b
  }

  /** The reschedules a limit of `n` still allows a row that has been
      scheduled `count` times: none once the count has reached the limit. */
  function Budget(n: int, count: nat): nat
  {
    if count <= n then n - count else 0
  }

  /** With a limit of `n`, only the budget of requests is accepted; every
      later one is refused and the count stays where it is. A row whose count
      is already past the limit (the limit comes from the job, the count from
      the row) accepts none. */
  lemma {:induction false} LimitedReschedules(e: Entry, n: int, dates: seq<Option<int>>)
    ensures RescheduleEach(e, Limited(n), dates).0 == Min(|dates|, Budget(n, e.numSchedules))
    ensures RescheduleEach(e, Limited(n), dates).1.numSchedules ==
      e.numSchedules + Min(|dates|, Budget(n, e.numSchedules))
    decreases |dates|
  {
    if dates != [] {
      var r := Rescheduled(e, Limited(n), dates[0]);
      if r.Success? {
        LimitedReschedules(r.value, n, dates[1..]);
      } else {
        LimitedReschedules(e, n, dates[1..]);
      }
    }
  }

  /** Without a limit every request is accepted. */
  lemma {:induction false} UnlimitedReschedules(e: Entry, dates: seq<Option<int>>)
    ensures RescheduleEach(e, Unlimited, dates).0 == |dates|
    ensures RescheduleEach(e, Unlimited, dates).1.numSchedules == e.numSchedules + |dates|
    ensures |dates| > 0 ==>
      RescheduleEach(e, Unlimited, dates).1.dateScheduled == dates[|dates| - 1]
    decreases |dates|
  {
    if dates != [] {
      var next := Rescheduled(e, Unlimited, dates[0]).value;
      UnlimitedReschedules(next, dates[1..]);
      if |dates| > 1 {
        assert dates[1..][|dates[1..]| - 1] == dates[|dates| - 1];
      }
    }
  }
}
