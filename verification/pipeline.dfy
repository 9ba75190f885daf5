/** The pipeline as a whole: uploads, `start_worker` and turns of the worker
    loop acting on one shared state. What holds across all of them: every
    queued job has its record, every record sits under its own id, and at most
    one loop runs. Two end-to-end runs connect an upload to what the thumbnail
    endpoint then serves. */
module Pipeline {
  import opened Basics
  import opened ImageModel
  import opened Thumbnails
  import opened ImageProcessing
  import opened Worker
  import opened Routes

  /** Every record is stored under its own id. */
  predicate WellKeyed(store: map<int, Record>)
  {
    forall id :: id in store ==> store[id].id == id
  }

  /** Every job waiting in the queue refers to a record in the store. */
  predicate JobsBacked(s: State)
  {
    forall i :: 0 <= i < |s.queue| && s.queue[i].Work? ==> s.queue[i].job.imageId in s.store
  }

  predicate SystemInv(s: State)
  {
    Worker.Inv(s) && WellKeyed(s.store) && JobsBacked(s)
  }

  /** The state right after start-up, over a store whose records sit under their ids. */
  lemma InitialInv(store: map<int, Record>)
    requires WellKeyed(store)
    ensures SystemInv(Initial(store))
  {
  }

  /** The things that happen to the shared state. */
  datatype Event = Upload(req: UploadRequest, uploadEnv: UploadEnv) | Boot | Handle(jobEnv: JobEnv)

  function Next(s: State, e: Event): State
  {
    match e
    case Upload(req, env) => UploadImage(s, req, env).0
    case Boot => StartWorker(s)
    case Handle(env) => Step(s, env)
  }

  /** Appending a job for a stored record to a backed queue, while the store
      only grows, leaves the queue backed. */
  lemma QueuedJobBacked(q: seq<Item>, q': seq<Item>, job: Job, store: map<int, Record>, store': map<int, Record>)
    requires q' == q + [Work(job)]
    requires store.Keys <= store'.Keys && job.imageId in store'
    requires forall i :: 0 <= i < |q| && q[i].Work? ==> q[i].job.imageId in store
    ensures forall i :: 0 <= i < |q'| && q'[i].Work? ==> q'[i].job.imageId in store'
  {
    forall i | 0 <= i < |q'| && q'[i].Work?
      ensures q'[i].job.imageId in store'
    {
      if i < |q| {
        assert q'[i] == q[i];
      }
    }
  }

  /** An upload keeps the invariant: the job it queues is for the row it has just created. */
  lemma UploadKeepsInv(s: State, req: UploadRequest, env: UploadEnv)
    requires SystemInv(s)
    ensures SystemInv(UploadImage(s, req, env).0)
  {
    var r := UploadImage(s, req, env).0;
    if ValidUpload(req) && Inserted(env, s.store) {
      var id := env.assignedId;
      var path := StoredPath(req.filename, env);
      assert r.store == s.store[id := NewRecord(id, req.filename, path, env.now)];
      assert r.started == s.started && r.loops == s.loops && r.live == s.live;
      assert WellKeyed(r.store);
      if env.refreshed {
        QueuedJobBacked(s.queue, r.queue, Job(id, path, req.filename), s.store, r.store);
      } else {
        assert r.queue == s.queue;
      }
    } else {
      assert r == s;
    }
  }

  /** A turn of the loop keeps the invariant: handling a job changes no id and
      only removes the head of the queue. */
  lemma StepKeepsInv(s: State, env: JobEnv)
    requires SystemInv(s)
    ensures SystemInv(Step(s, env))
  {
    var r := Step(s, env);
    if s.live && s.queue != [] {
      forall i | 0 <= i < |r.queue| && r.queue[i].Work?
        ensures r.queue[i].job.imageId in r.store
      {
        assert r.queue[i] == s.queue[i + 1];
      }
    }
  }

  /** Every event keeps the invariant. */
  lemma NextKeepsInv(s: State, e: Event)
    requires SystemInv(s)
    ensures SystemInv(Next(s, e))
  {
    match e
    case Upload(req, env) => UploadKeepsInv(s, req, env);
    case Boot =>
    case Handle(env) => StepKeepsInv(s, env);
  }

  function RunEvents(s: State, events: seq<Event>): State
    decreases |events|
  {
    if |events| == 0 then s else RunEvents(Next(s, events[0]), events[1..])
  }

  /** Whatever happens, in whatever order, the invariant holds throughout, and
      in particular no more than one loop is ever started. */
  lemma {:induction false} EventsKeepInv(s: State, events: seq<Event>)
    requires SystemInv(s)
    ensures SystemInv(RunEvents(s, events))
    ensures RunEvents(s, events).loops <= 1
    decreases |events|
  {
    if |events| > 0 {
      NextKeepsInv(s, events[0]);
      EventsKeepInv(Next(s, events[0]), events[1..]);
    }
  }

  /** In a reachable state the job the loop takes next always finds its record,
      so the worker's "no record" path is never taken. */
  lemma JobFindsRecord(s: State)
    requires SystemInv(s)
    requires s.queue != [] && s.queue[0].Work?
    ensures s.queue[0].job.imageId in s.store
  {
  }

  /** A task result as `process_image_task` produces it: one thumbnail per size label. */
  predicate FullThumbnails(res: TaskResult)
  {
    res.thumbnails.Keys == ThumbLabels
  }

  /** The worker's call to `process_image_task` for `job`: a success always
      carries one thumbnail per size label and the job's stored path. */
  method RunTask(job: Job, thumbDir: string, sanitize: string -> string, env: TaskEnv)
    returns (outcome: Result<TaskResult, TaskError>)
    ensures outcome.Ok? <==> env.image.Some? && env.fileStat.Some? && ThumbnailsSucceed(env.thumbFault)
    ensures outcome.Ok? ==> FullThumbnails(outcome.value) && outcome.value.storedPath == job.storedPath
  {
    var stages, written;
    stages, written, outcome := ProcessImageTask(job.storedPath, job.originalName, thumbDir, sanitize, env);
  }

  /** An accepted upload into an empty queue leaves exactly its own job queued,
      with its fresh record in the store, and a running loop still running. */
  lemma AcceptedUpload(s: State, req: UploadRequest, env: UploadEnv)
    requires s.live && s.queue == []
    requires ValidUpload(req) && Inserted(env, s.store) && env.refreshed
    ensures var u := UploadImage(s, req, env).0;
      && u.live
      && u.queue == [Work(Job(env.assignedId, StoredPath(req.filename, env), req.filename))]
      && env.assignedId in u.store
      && Pending(u.store[env.assignedId])
  {
  }

  /** Upload, then one successful turn of a running loop with an empty queue:
      the record is marked `success`, carries the processing result's fields, and each size
      is served from the path processing recorded when that file is on disk. */
  lemma UploadThenSuccess(s: State, req: UploadRequest, uenv: UploadEnv, jenv: JobEnv, size: string, onDisk: set<string>)
    requires s.live && s.queue == []
    requires ValidUpload(req) && Inserted(uenv, s.store) && uenv.refreshed
    requires SuccessPath(jenv) && FullThumbnails(jenv.outcome.value)
    requires size in ValidSizes
    ensures var t := Step(UploadImage(s, req, uenv).0, jenv);
      var id := uenv.assignedId;
      var res := jenv.outcome.value;
      && id in t.store
      && t.store[id].status == Success
      && t.store[id].thumbnails == Some(res.thumbnails)
      && t.store[id].caption == Some(res.caption)
      && t.store[id].metadata == Some(res.metadata)
      && t.store[id].processedAt == Some(res.processedAt)
      && t.queue == []
      && (res.thumbnails[size] in onDisk ==> GetThumbnail(t.store, id, size, onDisk) == File(res.thumbnails[size]))
      && (res.thumbnails[size] !in onDisk ==> IsError(GetThumbnail(t.store, id, size, onDisk), "File missing", 404))
  {
    var u := UploadImage(s, req, uenv).0;
    var id := uenv.assignedId;
    var res := jenv.outcome.value;
    AcceptedUpload(s, req, uenv);
    var t := Step(u, jenv);
    assert t.store == RunJob(u.store, u.queue[0].job, jenv);
    assert t.store[id] == Succeeded(u.store[id], res);
    assert size in res.thumbnails by {
      assert size in ThumbLabels;
    }
    assert HasThumbnails(t.store[id]);
  }

  /** Upload, then one failed turn: the record is marked `failed` and exposes
      nothing else, so no thumbnail can be served for it and its views show no
      thumbnail URLs. */
  lemma UploadThenFailure(s: State, req: UploadRequest, uenv: UploadEnv, jenv: JobEnv, size: string, onDisk: set<string>)
    requires s.live && s.queue == []
    requires ValidUpload(req) && Inserted(uenv, s.store) && uenv.refreshed
    requires !SuccessPath(jenv) && jenv.failureWrite
    requires size in ValidSizes
    ensures var t := Step(UploadImage(s, req, uenv).0, jenv);
      var id := uenv.assignedId;
      && id in t.store
      && t.store[id].status == Failed
      && Pending(t.store[id].(status := Processing))
      && t.store[id] == NewRecord(id, req.filename, StoredPath(req.filename, uenv), uenv.now).(status := Failed)
      && IsError(GetThumbnail(t.store, id, size, onDisk), "Thumbnail not found", 404)
      && ViewUrls(t.store[id]) == map[]
  {
    var u := UploadImage(s, req, uenv).0;
    var id := uenv.assignedId;
    AcceptedUpload(s, req, uenv);
    var t := Step(u, jenv);
    assert t.store == RunJob(u.store, u.queue[0].job, jenv);
    assert t.store[id] == MarkedFailed(u.store[id]);
    assert !HasThumbnails(t.store[id]);
  }
}
