/** The job record and the job registry of job.go, with the buffered status
    channel the record holds. The registry's mutex is not modelled: every
    operation here is one atomic step. */
module Jobs {
  import opened Wrappers

  type byte = x: int | 0 <= x < 256

  /** `JobStatus`: the status text, and an error text that is empty when it
      is absent. */
  datatype JobStatus = JobStatus(status: string, error: string)

  /** A buffered Go `chan string` of fixed capacity: a FIFO of the messages
      sent and not yet received. */
  class StatusChannel {
    var buffer: seq<string>
    const capacity: nat

    ghost predicate Valid()
      reads this
    {
      |buffer| <= capacity
    }

    /** `make(chan string, capacity)` */
    constructor (capacity: nat)
      ensures Valid() && buffer == [] && this.capacity == capacity
    {
      buffer := [];
      this.capacity := capacity;
    }

    /** `select { case ch <- msg: default: }`: the message is queued when
        there is room and dropped otherwise; the sender never waits. */
    method TrySend(msg: string) returns (sent: bool)
      requires Valid()
      modifies this
      ensures Valid()
      ensures sent == (|old(buffer)| < capacity)
      ensures buffer == if sent then old(buffer) + [msg] else old(buffer)
    {
      sent := |buffer| < capacity;
      if sent {
        buffer := buffer + [msg];
      }
    }

    /** `ch <- msg` when it does not have to wait: a send on a full channel
        would block, and every caller here proves there is room. */
    method Send(msg: string)
      requires Valid() && |buffer| < capacity
      modifies this
      ensures Valid() && buffer == old(buffer) + [msg]
    {
      buffer := buffer + [msg];
    }

    /** `select { case m := <-ch: default: }`: takes the oldest message if
        there is one, and otherwise leaves the channel as it was. */
    method TryReceive() returns (msg: Option<string>)
      modifies this
      ensures old(buffer) == [] ==> msg == None && buffer == []
      ensures old(buffer) != [] ==> msg == Some(old(buffer)[0]) && buffer == old(buffer)[1..]
      ensures old(Valid()) ==> Valid()
    {
      if buffer == [] {
        msg := None;
      } else {
        msg := Some(buffer[0]);
        buffer := buffer[1..];
      }
    }
  }

  /** The observable state of one job: what the handlers of main.go read
      and write. */
  datatype JobState = JobState(status: JobStatus, result: seq<byte>, queue: seq<string>, done: bool)

  /** `Job`: the status, the result bytes, the status channel and the `Done`
      channel, closed (`done`) once the work for the job has ended. */
  class Job {
    var status: JobStatus
    var result: seq<byte>
    const statusCh: StatusChannel
    var done: bool

    ghost predicate Valid()
      reads this, statusCh
    {
      statusCh.Valid()
    }

    function State(): JobState
      reads this, statusCh
    {
      JobState(status, result, statusCh.buffer, done)
    }

    /** `&Job{Status: status, StatusCh: make(chan string, capacity), Done: make(chan struct{})}` */
    constructor (status: JobStatus, capacity: nat)
      ensures Valid() && fresh(statusCh)
      ensures this.status == status && result == [] && !done
      ensures statusCh.buffer == [] && statusCh.capacity == capacity
    {
      this.status := status;
      result := [];
      statusCh := new StatusChannel(capacity);
      done := false;
    }

    /** `close(job.Done)`; closing it a second time would panic. */
    method CloseDone()
      requires !done
      modifies this
      ensures done && status == old(status) && result == old(result)
    {
      done := true;
    }
  }

  /** The package-level map `jobs` from job id to job. */
  class Registry {
    var jobs: map<string, Job>

    constructor ()
      ensures jobs == map[]
    {
      jobs := map[];
    }

    /** `AddJob(id, job)`: registers the job, replacing any job the id had. */
    method AddJob(id: string, job: Job)
      modifies this
      ensures jobs == old(jobs)[id := job]
    {
      jobs := jobs[id := job];
    }

    /** `GetJob(id)`: the job and true when the id is registered, nil and
        false otherwise. The registry is not changed. */
    method GetJob(id: string) returns (job: Job?, ok: bool)
      ensures ok == (id in jobs)
      ensures ok ==> job == jobs[id]
      ensures !ok ==> job == null
    {
      ok := id in jobs;
      job := if ok then jobs[id] else null;
    }

    /** `RemoveJob(id)`: drops the id; nothing happens when it is absent. */
    method RemoveJob(id: string)
      modifies this
      ensures jobs == old(jobs) - {id}
    {
      jobs := jobs - {id};
    }
  }

  /** A job just added is found under its id. */
  method AddThenGet(reg: Registry, id: string, job: Job) returns (got: Job?, ok: bool)
    modifies reg
    ensures ok && got == job
    ensures forall k :: k != id ==> (k in reg.jobs <==> k in old(reg.jobs))
    ensures forall k :: k != id && k in reg.jobs ==> reg.jobs[k] == old(reg.jobs)[k]
  {
    reg.AddJob(id, job);
    got, ok := reg.GetJob(id);
  }

  /** A removed id is not found, whether or not it was there; no other id
      is affected. */
  method RemoveThenGet(reg: Registry, id: string) returns (got: Job?, ok: bool)
    modifies reg
    ensures !ok && got == null
    ensures id !in old(reg.jobs) ==> reg.jobs == old(reg.jobs)
    ensures forall k :: k != id ==> (k in reg.jobs <==> k in old(reg.jobs))
    ensures forall k :: k != id && k in reg.jobs ==> reg.jobs[k] == old(reg.jobs)[k]
  {
    reg.RemoveJob(id);
    got, ok := reg.GetJob(id);
  }

  /** `GenerateJobID()`: a fresh id. A UUID is taken to be fresh; here the id
      is built longer than every id in use, so it cannot be one of them. */
  method GenerateJobID(taken: set<string>) returns (id: string)
    ensures id !in taken
    ensures |id| > 0
  {
    var longest: nat := 0;
    var rest := taken;
    while rest != {}
      invariant rest <= taken
      invariant forall k :: k in taken - rest ==> |k| <= longest
      decreases |rest|
    {
      var k :| k in rest;
      if |k| > longest {
        longest := |k|;
      }
      rest := rest - {k};
    }
    id := seq(longest + 1, _ => '0');
  }
}
