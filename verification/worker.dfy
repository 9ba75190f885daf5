/** The background worker: a FIFO job queue, the guard that starts at most one
    consumer loop, and the loop that runs each job and writes its outcome to
    the record store. Threads and blocking are not modelled: the consumer is a
    step function over the queue and the store, and each step handles the job
    at the head of the queue. */
module Worker {
  import opened Basics
  import opened ImageModel
  import opened ImageProcessing

  /** The dictionary `enqueue_image_job` puts on the queue. */
  datatype Job = Job(imageId: int, storedPath: string, originalName: string)

  /** A queue entry: a job, or the `None` sentinel that ends the loop. */
  datatype Item = Work(job: Job) | Stop

  /** What happens outside the loop's own logic while it handles one job:
      the outcome of `process_image_task`, and whether the store session of the
      success path and of the failure path go through (query and commit) or raise. */
  datatype JobEnv = JobEnv(outcome: Result<TaskResult, TaskError>, successWrite: bool, failureWrite: bool)

  /** The worker's state together with the record store it writes to.
      `loops` counts the consumer loops ever started and `live` says whether one
      is still running; `tasksDone` counts `task_done` calls and `handled` lists
      the ids of the jobs handled, in order. */
  datatype State = State(
    started: bool,
    loops: nat,
    live: bool,
    queue: seq<Item>,
    store: map<int, Record>,
    tasksDone: nat,
    handled: seq<int>)

  /** The state at import time: nothing started, an empty queue. */
  function Initial(store: map<int, Record>): (s: State)
    ensures !s.started && s.loops == 0 && !s.live && s.queue == [] && s.store == store
    ensures Inv(s)
  {
    State(false, 0, false, [], store, 0, [])
  }

  /** The started flag and the loop count agree: one loop once started, none before. */
  predicate Inv(s: State)
  {
    && s.loops == (if s.started then 1 else 0)
    && (s.live ==> s.started)
  }

  /** `start_worker`: the first call sets the flag and starts one loop; every
      later call returns at once. */
  function StartWorker(s: State): (r: State)
    ensures r.started
    ensures s.started ==> r == s
    ensures !s.started ==> r == s.(started := true, loops := s.loops + 1, live := true)
    ensures Inv(s) ==> Inv(r)
  {
    if s.started then s
    else s.(started := true, loops := s.loops + 1, live := true)
  }

  /** Calling `start_worker` twice is the same as calling it once. */
  lemma StartWorkerIdempotent(s: State)
    ensures StartWorker(StartWorker(s)) == StartWorker(s)
  {
  }

  /** `enqueue_image_job`: the job goes to the back of the queue. */
  function Enqueue(s: State, job: Job): (r: State)
    ensures r.queue == s.queue + [Work(job)]
    ensures r == s.(queue := r.queue)
  {
    s.(queue := s.queue + [Work(job)])
  }

  /** The record after the success path: the four result fields and the status
      are overwritten, everything else is kept. */
  function Succeeded(r: Record, res: TaskResult): (u: Record)
    ensures u.id == r.id && u.originalName == r.originalName
    ensures u.storedPath == r.storedPath && u.createdAt == r.createdAt
    ensures u.thumbnails == Some(res.thumbnails) && u.metadata == Some(res.metadata)
    ensures u.caption == Some(res.caption) && u.processedAt == Some(res.processedAt)
    ensures u.status == Success
  {
    r.(thumbnails := Some(res.thumbnails), metadata := Some(res.metadata),
       caption := Some(res.caption), processedAt := Some(res.processedAt), status := Success)
  }

  /** The record after the failure path: only the status changes. */
  function MarkedFailed(r: Record): (u: Record)
    ensures u.status == Failed
    ensures u.(status := r.status) == r
  {
    r.(status := Failed)
  }

  /** Whether the success path commits: processing returned a result and its
      session went through. Otherwise the failure path runs. */
  predicate SuccessPath(env: JobEnv)
  {
    env.outcome.Ok? && env.successWrite
  }

  /** The store after one job. The success path writes the result to the job's
      record when there is one; a task error, or a success session that raises,
      leads to the failure path, which marks the record failed when there is one
      and its own session goes through. A missing record is left missing. */
  function RunJob(store: map<int, Record>, job: Job, env: JobEnv): (r: map<int, Record>)
    ensures r.Keys == store.Keys
    ensures forall id :: id in store && id != job.imageId ==> r[id] == store[id]
    ensures job.imageId in store && SuccessPath(env) ==>
              r[job.imageId] == Succeeded(store[job.imageId], env.outcome.value)
    ensures job.imageId in store && !SuccessPath(env) && env.failureWrite ==>
              r[job.imageId] == MarkedFailed(store[job.imageId])
    ensures job.imageId !in store || (!SuccessPath(env) && !env.failureWrite) ==> r == store
  {
    var id := job.imageId;
    if id !in store then store
    else if SuccessPath(env) then store[id := Succeeded(store[id], env.outcome.value)]
    else if env.failureWrite then store[id := MarkedFailed(store[id])]
    else store
  }

  /** One turn of the loop. With no running loop, or nothing queued, nothing
      happens (the loop would block). The sentinel ends the loop without a
      `task_done`; a job is handled, whatever its outcome, with exactly one
      `task_done`, and the loop goes on. */
  function Step(s: State, env: JobEnv): (r: State)
    ensures !s.live || s.queue == [] ==> r == s
    ensures s.live && s.queue != [] ==> r.queue == s.queue[1..]
    ensures s.live && s.queue != [] && s.queue[0].Stop? ==>
              r == s.(live := false, queue := s.queue[1..])
    ensures s.live && s.queue != [] && s.queue[0].Work? ==>
              var job := s.queue[0].job;
              && r.live
              && r.tasksDone == s.tasksDone + 1
              && r.handled == s.handled + [job.imageId]
              && r.store == RunJob(s.store, job, env)
    ensures r.started == s.started && r.loops == s.loops
  {
    if !s.live || s.queue == [] then s
    else match s.queue[0]
      case Stop => s.(live := false, queue := s.queue[1..])
      case Work(job) =>
        s.(queue := s.queue[1..], store := RunJob(s.store, job, env),
           tasksDone := s.tasksDone + 1, handled := s.handled + [job.imageId])
  }

  /** Whether the sentinel is among `items`. */
  predicate HasStop(items: seq<Item>)
  {
    exists i :: 0 <= i < |items| && items[i].Stop?
  }

  /** The ids of the jobs queued before the first sentinel, in queue order: the
      jobs a running loop handles before it stops. */
  function JobsBeforeStop(items: seq<Item>): (ids: seq<int>)
    ensures |ids| <= |items|
  {
    if |items| == 0 || items[0].Stop? then []
    else [items[0].job.imageId] + JobsBeforeStop(items[1..])
  }

  /** The queue left once the loop has taken everything up to and including the first sentinel. */
  function AfterStop(items: seq<Item>): (rest: seq<Item>)
    ensures |rest| <= |items|
  {
    if |items| == 0 then []
    else if items[0].Stop? then items[1..]
    else AfterStop(items[1..])
  }

  /** Runs the loop until it stops or the queue is empty; the job handled as the
      `k`-th `task_done` meets `envs(k)`. */
  function Drain(s: State, envs: nat -> JobEnv): (r: State)
    ensures !r.live || r.queue == []
    ensures r.started == s.started && r.loops == s.loops
    ensures |r.queue| <= |s.queue|
    decreases |s.queue|
  {
    if !s.live || s.queue == [] then s
    else Drain(Step(s, envs(s.tasksDone)), envs)
  }

  /** A job at the head of the queue does not change whether a sentinel is queued. */
  lemma HasStopBehindWork(q: seq<Item>)
    requires |q| > 0 && q[0].Work?
    ensures HasStop(q) <==> HasStop(q[1..])
  {
    if HasStop(q) {
      var i :| 0 <= i < |q| && q[i].Stop?;
      assert q[1..][i - 1] == q[i];
    }
    if HasStop(q[1..]) {
      var i :| 0 <= i < |q[1..]| && q[1..][i].Stop?;
      assert q[i + 1] == q[1..][i];
    }
  }

  /** Draining a running loop handles the jobs queued before the first sentinel,
      one at a time and in the order they were enqueued, with one `task_done` each. */
  lemma {:induction false} DrainFifo(s: State, envs: nat -> JobEnv)
    requires s.live
    ensures Drain(s, envs).handled == s.handled + JobsBeforeStop(s.queue)
    ensures Drain(s, envs).tasksDone == s.tasksDone + |JobsBeforeStop(s.queue)|
    decreases |s.queue|
  {
    if s.queue != [] && s.queue[0].Work? {
      var t := Step(s, envs(s.tasksDone));
      DrainFifo(t, envs);
      assert t.handled + JobsBeforeStop(t.queue) == s.handled + JobsBeforeStop(s.queue);
    }
  }

  /** A running loop stops exactly when a sentinel was queued, taking the queue
      up to and including the first one; the worker's start state is untouched. */
  lemma {:induction false} DrainStops(s: State, envs: nat -> JobEnv)
    requires s.live
    ensures Drain(s, envs).queue == AfterStop(s.queue)
    ensures Drain(s, envs).live <==> !HasStop(s.queue)
    ensures Drain(s, envs).started == s.started && Drain(s, envs).loops == s.loops
    decreases |s.queue|
  {
    if s.queue != [] {
      if s.queue[0].Stop? {
        assert HasStop(s.queue) by { assert s.queue[0].Stop?; }
      } else {
        DrainStops(Step(s, envs(s.tasksDone)), envs);
        HasStopBehindWork(s.queue);
      }
    }
  }

  /** Draining keeps the store's ids, and a record whose id no handled job
      carries is left exactly as it was. */
  lemma {:induction false} DrainStore(s: State, envs: nat -> JobEnv)
    ensures var r := Drain(s, envs);
      && r.store.Keys == s.store.Keys
      && (s.live ==> forall id :: id in s.store && id !in JobsBeforeStop(s.queue) ==> r.store[id] == s.store[id])
    decreases |s.queue|
  {
    if s.live && s.queue != [] && s.queue[0].Work? {
      DrainStore(Step(s, envs(s.tasksDone)), envs);
    }
  }

  /** The operations on the worker: `start_worker`, `enqueue_image_job`, and one
      turn of the loop meeting `env`. This is the worker on its own: the
      single-loop guarantee below needs nothing about the store, while the
      pipeline's events, which also create records, carry a stronger invariant. */
  datatype Op = Start | Put(job: Job) | Turn(env: JobEnv)

  function Apply(s: State, op: Op): State
  {
    match op
    case Start => StartWorker(s)
    case Put(job) => Enqueue(s, job)
    case Turn(env) => Step(s, env)
  }

  function Run(s: State, ops: seq<Op>): State
    decreases |ops|
  {
    if |ops| == 0 then s else Run(Apply(s, ops[0]), ops[1..])
  }

  /** Whatever operations run, in whatever order, at most one loop is ever
      started, and only after `start_worker` has been called. */
  lemma {:induction false} AtMostOneLoop(s: State, ops: seq<Op>)
    requires Inv(s)
    ensures Inv(Run(s, ops))
    ensures Run(s, ops).loops <= 1
    decreases |ops|
  {
    if |ops| > 0 {
      AtMostOneLoop(Apply(s, ops[0]), ops[1..]);
    }
  }
}
