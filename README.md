# Queue job status engine (ride-app-queue-orm), modelled in Dafny

This project models the ORM-backed job queue of `ride/app-queue-orm`: a table of queue
entries, each holding one serialized job. Its operations are these:

- push a job to a named queue, with a priority and an optional "not before" date;
- pop the first eligible entry of a queue and mark it in progress;
- report an error or a progress description;
- reschedule a job, up to its maximum number of schedules;
- finish a job, which deletes its entry;
- three status reports: waiting counts per queue, all entries of a queue with positional
  slots, and the slot and slots of one entry.

The table becomes a class `QueueJobStatusModel` holding `entries: map<int, Entry>` (id to
row) and the next id the store hands out. The store's filtered, ordered and counted queries
become set comprehensions (`QueueIds`, `EligibleIds`, `WaitingBefore`) and orders
(`Precedes`, `StringLess`, ascending ids). The current time, `time()` in the code, is a
parameter `now`. The entry object `OrmQueueJobStatus` is a class with these parts:

- the persisted columns;
- a cached job, filled on the first `GetQueueJob`, which stamps the row's id on the job;
- the transient `slot` and `slots` fields.

Files:

- `ordering.dfy` (module `Ordering`): strict total orders and least elements, and choosing from
  a set. `SortAscending` is the `ORDER BY` of a query and the `ksort` of the status report.
  `StringLess` is the order of queue names.
- `queue_types.dfy` (module `QueueTypes`): job, entry row, status, max-schedules variant,
  payload envelope, eligibility, and the reschedule rule with its budget lemmas.
- `orm_queue_job_status.dfy` (module `QueueEntry`): the entry object.
- `queue_job_status_model.dfy` (module `QueueModel`): the query sets, the slot lemmas and the
  engine class.
- `queue_scenarios.dfy` (module `QueueScenarios`): callers that replay the queue's behaviour.
  Each one is proved from the operations' contracts alone.

The model follows the code in these places, which are easy to misread:

- The slot of `getQueueJobStatus` counts the WAITING entries of the queue with a smaller id,
  without the schedule filter (QueueJobStatusModel.php:81). The slots count only eligible
  entries (line 77). So a slot can exceed the slots: `SlotMayExceedSlots` shows an instance,
  and `SlotWithinSlots` proves slot <= slots when every earlier waiting entry is due.
- Pop is an unguarded read followed by a save (lines 119-130). There is no atomic claim.
  The model is sequential.
- `updateStatus`, `rescheduleJob` and `finishJob` use `createProxy`, which does no existence
  check. The model therefore has `id in entries` as a precondition, not a not-found error.
  `updateStatus` refuses a status other than ERROR before `createProxy` (lines 144-146), so
  it needs an existing id only when the status is accepted.
- Push refuses a job whose queue name is PHP-false (`!$queueJob->getQueue()`, line 95).
  That is the empty string and also `"0"` (`IsFalsyName`).
- Push caches the clone of the job before the caller's job gets its id (lines 100 and 107).
  So the returned entry's cached job does not carry the new id. The caller's job does.
- Push never sets the number of schedules or the description. The model assumes the store
  defaults them to 0 and the empty string (`OrmQueueJobStatus.Blank`).

## Model

| member | source | states |
|---|---|---|
| `QueueModel.QueueJobStatusModel.PushJobToQueue` | src/ride/application/orm/model/QueueJobStatusModel.php:94-110 | A falsy queue name ("" or "0") fails with NoQueueSet, nothing changes. Otherwise exactly one row is added under the fresh id `nextId`, and the counter advances. The row is WAITING, has the job's queue, priority and serialized form, the given schedule, 0 schedules and an empty description. The caller's job gets the new id; the returned entry caches the job as pushed and has no slots. |
| `QueueModel.QueueJobStatusModel.FindFirstEligible` | src/ride/application/orm/model/QueueJobStatusModel.php:119-126 | None exactly when no row of the queue is eligible at `now`. Otherwise the eligible row that precedes every other in (priority, id) order. |
| `QueueModel.QueueJobStatusModel.PopJobFromQueue` | src/ride/application/orm/model/QueueJobStatusModel.php:118-133 | Null exactly when no row of the queue is eligible; then nothing changes. Otherwise it returns the first eligible row by (priority, id), and that row's status becomes PROGRESS. Every other row and column is unchanged. |
| `QueueModel.QueueJobStatusModel.UpdateStatus` | src/ride/application/orm/model/QueueJobStatusModel.php:143-156 | A given status other than ERROR fails with OnlyErrorStatusAllowed before any change, whether or not the id has a row. Otherwise the id must have a row, and the description is always set. The status becomes ERROR exactly when a status is given. Nothing else changes. |
| `QueueModel.QueueJobStatusModel.RescheduleJob` | src/ride/application/orm/model/QueueJobStatusModel.php:165-182 | Succeeds exactly when the limit is Unlimited or larger than the row's schedule count. Then the row becomes `Rescheduled(...)`: WAITING, the new date, count + 1. Otherwise it fails with MaxSchedulesReached and nothing changes. |
| `QueueModel.QueueJobStatusModel.FinishJob` | src/ride/application/orm/model/QueueJobStatusModel.php:189-193 | The job's row is deleted; every other row is unchanged. |
| `QueueModel.QueueJobStatusModel.GetQueueStatus` | src/ride/application/orm/model/QueueJobStatusModel.php:20-38 | Queue names are in strictly ascending order. Each count is that queue's number of eligible rows and is at least 1. Every queue with an eligible row is listed. The store is not modified. |
| `QueueModel.CountEligiblePerQueue` | src/ride/application/orm/model/QueueJobStatusModel.php:23-33 | Counting the eligible rows one by one, in any order, gives exactly the queues with an eligible row, each with its number of eligible rows. |
| `QueueModel.QueueJobStatusModel.GetQueueJobStatuses` | src/ride/application/orm/model/QueueJobStatusModel.php:45-62 | Exactly the rows of the queue, whatever their status or schedule, in ascending id order. Row i gets slot i + 1, and every row gets slots N, the number of rows. |
| `QueueModel.LoadRows` | src/ride/application/orm/model/QueueJobStatusModel.php:50 | The query result: one fresh, distinct entry object per id, in the given order. Each holds its row, with no cached job. |
| `QueueModel.QueueJobStatusModel.GetQueueJobStatus` | src/ride/application/orm/model/QueueJobStatusModel.php:70-85 | Null exactly when the id has no row. Otherwise the row, with slots = its queue's eligible rows and slot = 1 + its queue's WAITING rows with a smaller id. |
| `QueueModel.FirstEligibleUnique` | src/ride/application/orm/model/QueueJobStatusModel.php:121-123 | Ordering by priority and then id picks one row: two first eligible rows are the same row. |
| `QueueModel.FirstEligibleIsDue` | src/ride/application/orm/model/QueueJobStatusModel.php:120 | A popped row belongs to the queue, is WAITING, and is unscheduled or scheduled no later than `now`. |
| `QueueModel.SlotWithinSlots` | src/ride/application/orm/model/QueueJobStatusModel.php:77-82 | For an eligible row whose earlier waiting rows are all due, 1 <= slot <= slots. |
| `QueueModel.SlotMayExceedSlots` | src/ride/application/orm/model/QueueJobStatusModel.php:77-82 | A waiting row scheduled in the future counts toward a later row's slot but not toward its slots. Row 2 reports slot 2 of 1. |
| `QueueTypes.Rescheduled` | src/ride/application/orm/model/QueueJobStatusModel.php:168-179 | Succeeds iff the limit is Unlimited or exceeds the schedule count. It then sets WAITING, the new date and count + 1, and keeps queue, data, priority and description. Otherwise it fails with MaxSchedulesReached. |
| `QueueTypes.LimitedReschedules` | src/ride/application/orm/model/QueueJobStatusModel.php:169 | Under Limited(n), a run of requests has exactly min(requests, n - count) accepted, none when the count is already at or past n, and the count ends that much higher. |
| `QueueTypes.UnlimitedReschedules` | src/ride/application/orm/model/QueueJobStatusModel.php:169 | Under Unlimited, every request is accepted: the count grows by the number of requests and the last date holds. |
| `QueueTypes.UnserializeSerialize` | src/ride/application/queue/OrmQueueJobStatus.php:40-55 | Unserializing the stored data gives back the job that was stored. |
| `Ordering.SortAscending` | src/ride/application/orm/model/QueueJobStatusModel.php:35 | The result holds exactly the set's elements, as many as the set has, in strictly ascending order. This is `ksort` and `ORDER BY {id} ASC`. |
| `Ordering.PickLeast` | src/ride/application/orm/model/QueueJobStatusModel.php:121-123 | `queryFirst` under an order: the element that precedes every other. |
| `Ordering.LeastExists` | src/ride/application/orm/model/QueueJobStatusModel.php:121-123 | Every non-empty set under a strict total order has a least element, so an ordered query over a non-empty result has a first row. |
| `Ordering.StringLessOrders` | src/ride/application/orm/model/QueueJobStatusModel.php:35 | The lexicographic order of queue names is a strict total order, so `ksort` gives one well-defined order. |
| `QueueEntry.OrmQueueJobStatus.SetQueueJob` | src/ride/application/queue/OrmQueueJobStatus.php:38-44 | The queue column becomes the job's queue and the data becomes its serialized form. The job is cached. No other column changes. |
| `QueueEntry.OrmQueueJobStatus.GetQueueJob` | src/ride/application/queue/OrmQueueJobStatus.php:50-59 | A cached job is returned unchanged. Otherwise the job is unserialized from the data, stamped with the row's id, cached and returned. |
| `QueueEntry.OrmQueueJobStatus.SetSlot` | src/ride/application/queue/OrmQueueJobStatus.php:65-67 | The slot becomes the value; the slots are unaffected. |
| `QueueEntry.OrmQueueJobStatus.GetSlot` | src/ride/application/queue/OrmQueueJobStatus.php:73-75 | Returns the slot last set (none if never set). |
| `QueueEntry.OrmQueueJobStatus.SetSlots` | src/ride/application/queue/OrmQueueJobStatus.php:82-84 | The slots become the value; the slot is unaffected. |
| `QueueEntry.OrmQueueJobStatus.GetSlots` | src/ride/application/queue/OrmQueueJobStatus.php:90-92 | Returns the slots last set (none if never set). |
| `QueueEntry.OrmQueueJobStatus.Blank` | src/ride/application/orm/model/QueueJobStatusModel.php:99 | A new unsaved row: no data, no queue, 0 schedules, empty description, nothing cached. |
| `QueueEntry.OrmQueueJobStatus.Load` | src/ride/application/orm/model/QueueJobStatusModel.php:71 | An entry object loaded from a row: that row and id, no cached job, no slot numbers. |
| `QueueScenarios.PriorityThenIdOrder` | src/ride/application/orm/model/QueueJobStatusModel.php:118-133 | Jobs of priority 5, 1 and 5 pushed in that order pop in the order second, first, third. A fourth pop returns null. |
| `QueueScenarios.FinishedJobIsAbsent` | src/ride/application/orm/model/QueueJobStatusModel.php:70-74 | After `finishJob`, `getQueueJobStatus` of that id returns null. |
| `QueueScenarios.RejectedStatusWithoutRow` | src/ride/application/orm/model/QueueJobStatusModel.php:144-146 | Reporting PROGRESS for an id with no row fails with OnlyErrorStatusAllowed and adds no row. |
| `QueueScenarios.ErrorThenRetrying` | src/ride/application/orm/model/QueueJobStatusModel.php:143-156 | Reporting ERROR with "oops" and then "retrying" without a status leaves status ERROR and description "retrying". |
| `QueueScenarios.RescheduleUntilLimit` | src/ride/application/orm/model/QueueJobStatusModel.php:165-182 | With a limit of 2 on a fresh row, two reschedules succeed. The third fails with MaxSchedulesReached and the count stays 2. |
| `QueueScenarios.PushedJobReadBack` | src/ride/application/queue/OrmQueueJobStatus.php:50-58 | The job read back from a pushed row equals the caller's job after the push: the job with the row's id. |
| `QueueScenarios.JobIsCached` | src/ride/application/queue/OrmQueueJobStatus.php:50-58 | Two reads of a loaded row's job give the same job, stamped with the row's id. |
| `QueueScenarios.SlotAndSlots` | src/ride/application/queue/OrmQueueJobStatus.php:65-92 | Setting slot and then slots reads both back unchanged. |

## Left out

- `src/ride/application/queue/OrmQueueManager.php`: one-line delegations to the engine and
  constructor wiring. It has no logic of its own.
- Concurrency: pop is not atomic in the code. Races between workers that pop the same queue
  are not modelled, and every operation runs alone.
- PHP `serialize`/`unserialize`: the data column is an envelope `Serialized(job)` that keeps
  the whole job. The job's own properties are an opaque `state`.
- `clone`: jobs are immutable values, so the clone stored on push is the value itself.
- `get_class` and the className column: not modelled, because the envelope already keeps the
  whole job.
- ORM internals (`createQuery`, `createProxy`, `save`, `delete`, query strings): replaced by
  set comprehensions and map updates.
- Not-found behaviour of `createProxy` is not shown in this code. `RescheduleJob` and
  `FinishJob` require an existing id; `UpdateStatus` requires one only when it accepts the
  status, since it refuses any other status before `createProxy` is reached.
- Failures of the store itself (a save or delete that fails): not modelled.
- `time()` is the parameter `now`. The model does not check that it grows between calls.
- `getMaxSchedules()` is modelled as `Unlimited | Limited(n)` only. PHP's loose comparisons
  of other values (strings, floats, false) are left out.
- `ksort`: keys are compared character by character. PHP's numeric comparison of numeric
  strings, and its turning of integer-like string keys into integer keys, are left out.
- `updateStatus` takes a status of the model's three statuses or none. Any other string also
  fails in the code, which the model's non-ERROR statuses stand for.
- Entry setters inherited from the generated entry class (setStatus, setPriority and
  others) are plain field assignments.
