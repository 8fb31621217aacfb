/** The entry object of the queue table: a loaded row with its id, a lazily
    reconstructed job, and the transient `slot` / `slots` a status query
    fills in (they are never persisted). */
module QueueEntry {
  import opened QueueTypes

  class OrmQueueJobStatus {
    // persisted columns
    var id: int
    var queue: string
    var data: Data
    var status: Status
    var priority: int
    var dateScheduled: Option<int>
    var numSchedules: nat
    var description: string
    // transient state
    var queueJob: Option<Job>
    var slot: Option<int>
    var slots: Option<int>

    /** The persisted columns of this object, as the store keeps them. */
    function Row(): Entry
      reads this`queue, this`data, this`status, this`priority
      reads this`dateScheduled, this`numSchedules, this`description
    {
      Entry(queue, data, status, priority, dateScheduled, numSchedules, description)
    }

    /** A new, unsaved row. The number of schedules starts at 0 and the
        description empty: these are the column defaults the store is
        assumed to give; push sets every other column itself. */
    constructor Blank()
      ensures id == 0 && queue == [] && data == NoData
      ensures numSchedules == 0 && description == [] && dateScheduled == None
      ensures queueJob == None && slot == None && slots == None
    {
      id := 0;
      queue := [];
      data := NoData;
      status := Waiting;
      priority := 0;
      dateScheduled := None;
      numSchedules := 0;
      description := [];
      queueJob := None;
      slot := None;
      slots := None;
    }

    /** Row `e` with id `id` as a query loads it: no job reconstructed yet,
        no slot numbers. */
    constructor Load(id: int, e: Entry)
      ensures this.id == id && Row() == e
      ensures queueJob == None && slot == None && slots == None
    {
      this.id := id;
      queue := e.queue;
      data := e.data;
      status := e.status;
      priority := e.priority;
      dateScheduled := e.dateScheduled;
      numSchedules := e.numSchedules;
      description := e.description;
      queueJob := None;
      slot := None;
      slots := None;
    }

    /** Stores `job`: its queue name becomes the row's queue, its serialized
        form the row's data, and the job itself is kept as the cached job. */
    method SetQueueJob(job: Job)
      modifies this`queue, this`data, this`queueJob
      ensures queue == job.queue && data == Serialize(job) && queueJob == Some(job)
      ensures Row() == old(Row()).(queue := job.queue, data := Serialize(job))
    {
      queue := job.queue;
      data := Serialize(job);
      queueJob := Some(job);
    }

    /** The job of this row. A cached job is returned as it is and nothing
        changes. Otherwise the job is unserialized from the data, its job id
        is set to this row's id, and it is cached, so the next call returns
        the same job. */
    method GetQueueJob() returns (job: Job)
      requires queueJob.Some? || data.Serialized?
      modifies this`queueJob
      ensures old(queueJob).Some? ==> job == old(queueJob).value && queueJob == old(queueJob)
      ensures old(queueJob).None? ==>
        job == Unserialize(data).(jobId := Some(id)) && queueJob == Some(job)
    {
      if queueJob.Some? {
        return queueJob.value;
      }
      job := Unserialize(data);
      job := job.(jobId := Some(id));
      queueJob := Some(job);
    }

    method SetSlot(slot: int)
      modifies this`slot
      ensures this.slot == Some(slot) && slots == old(slots)
    {
      this.slot := Some(slot);
    }

    method GetSlot() returns (slot: Option<int>)
      ensures slot == this.slot
    {
      slot := this.slot;
    }

    method SetSlots(slots: int)
      modifies this`slots
      ensures this.slots == Some(slots) && slot == old(slot)
    {
      this.slots := Some(slots);
    }

    method GetSlots() returns (slots: Option<int>)
      ensures slots == this.slots
    {
      slots := this.slots;
    }
  }
}
