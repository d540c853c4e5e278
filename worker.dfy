/** pkg/worker.go: the state a downloader shares with the tasks it queues. The
    worker pool is a first-in first-out queue of task descriptions; its
    concurrency is not modelled. */
module Worker {
  import opened Types

  /** `baseWorker`: a client, a pool of `jobs` workers holding the queued
      tasks, and the last error any task reported. */
  class BaseWorker<T> {
    const client: Client
    const jobs: int
    var queue: seq<T>
    var lasterror: Option<Error>

    /** The struct literal of `newBaseWorker`: an empty pool, a nil error. */
    constructor (client: Client, jobs: int)
      ensures this.client == client && this.jobs == jobs
      ensures queue == [] && lasterror == None
    {
      this.client := client;
      this.jobs := jobs;
      queue := [];
      lasterror := None;
    }

    /** `GetLastErr`. */
    method GetLastErr() returns (err: Option<Error>)
      ensures err == lasterror
    {
      err := lasterror;
    }

    /** `SetLastErr`: overwrites the slot and touches nothing else. */
    method SetLastErr(err: Option<Error>)
      modifies this`lasterror
      ensures lasterror == err
    {
      lasterror := err;
    }

    /** `wp.Submit`: the task joins the end of the queue. */
    method Enqueue(task: T)
      modifies this`queue
      ensures queue == old(queue) + [task]
    {
      queue := queue + [task];
    }

    /** A worker takes the oldest queued task. */
    method Dequeue() returns (task: T)
      requires queue != []
      modifies this`queue
      ensures old(queue) == [task] + queue
    {
      task := queue[0];
      queue := queue[1..];
    }
  }

  /** `newBaseWorker(n_jobs)`, given what `CreateClient` returned: no worker
      and the client's error, or a fresh worker with an empty slot. */
  method NewBaseWorker<T>(jobs: int, client: Result<Client>) returns (w: BaseWorker?<T>, err: Option<Error>)
    ensures client.Err? ==> w == null && err == Some(client.error)
    ensures client.Ok? ==> w != null && fresh(w) && err == None
    ensures client.Ok? ==> w.client == client.value && w.jobs == jobs && w.queue == [] && w.lasterror == None
  {
    match client
    case Err(e) =>
      w, err := null, Some(e);
    case Ok(c) =>
      w := new BaseWorker(c, jobs);
      err := None;
  }
}
