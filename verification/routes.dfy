/** The decisions the HTTP handlers make: upload validation and record creation,
    the thumbnail lookup chain, the thumbnail-URL map of the listing and detail
    views, and the statistics. Requests, the framework's response objects, URL
    building and the file system are not modelled: a request is a datatype, a
    response is a status code with the JSON envelope, and which paths exist on
    disk is an input. */
module Routes {
  import opened Basics
  import opened Text
  import opened ImageModel
  import opened Worker

  // ---------------------------------------------------------------------------
  // Responses
  // ---------------------------------------------------------------------------

  /** The JSON envelope every handler returns: `{"status", "data", "error"}`. */
  datatype Envelope<D> = Envelope(status: string, data: Option<D>, error: Option<string>)

  /** A handler's response: a JSON body with its status code, or a file sent as is. */
  datatype Reply<D> = Json(code: int, body: Envelope<D>) | File(path: string)

  /** `error_response`: the error envelope, with no data, and the given code. */
  function ErrorResponse<D>(msg: string, code: int): (r: Reply<D>)
    ensures r.Json? && r.code == code
    ensures r.body.status == "error" && r.body.data.None? && r.body.error == Some(msg)
  {
    Json(code, Envelope("error", None, Some(msg)))
  }

  /** The success envelope around `data`, with status code `code`. */
  function SuccessResponse<D>(data: D, code: int): (r: Reply<D>)
    ensures r.Json? && r.code == code
    ensures r.body.status == "success" && r.body.data == Some(data) && r.body.error.None?
  {
    Json(code, Envelope("success", Some(data), None))
  }

  /** Whether `r` is an error envelope carrying `msg` with code `code`. */
  predicate IsError<D>(r: Reply<D>, msg: string, code: int)
  {
    r.Json? && r.code == code && r.body.status == "error" && r.body.data.None? && r.body.error == Some(msg)
  }

  // ---------------------------------------------------------------------------
  // Upload
  // ---------------------------------------------------------------------------

  /** `ALLOWED_EXT`. */
  const AllowedExt: set<string> := {"jpg", "jpeg", "png"}

  /** `filename.rsplit(".", 1)[-1].lower()`: the lower-cased text after the last
      dot, or the whole name lower-cased when it has no dot. */
  function ExtensionOf(filename: string): (ext: string)
    ensures |ext| <= |filename|
    ensures '.' !in ext
    ensures ext == Lower(filename[|filename| - |ext|..])
    ensures |ext| < |filename| ==> filename[|filename| - |ext| - 1] == '.'
  {
    var tail := AfterLastDot(filename);
    assert filename[|filename| - |tail|..] == tail;
    Lower(tail)
  }

  /** A name without a dot is checked whole: a bare `PNG` passes. */
  lemma ExtensionBareAccepted()
    ensures ExtensionOf("PNG") == "png" && "png" in AllowedExt
  {
    AfterLastDotNoDot("PNG");
  }

  /** A name without a dot is checked whole: `photo` is refused. */
  lemma ExtensionBareRejected()
    ensures ExtensionOf("photo") == "photo" && "photo" !in AllowedExt
  {
    AfterLastDotNoDot("photo");
  }

  /** Only the text after the last dot counts: `a.png.gif` is refused. */
  lemma ExtensionLastDotRejected()
    ensures ExtensionOf("a.png.gif") == "gif" && "gif" !in AllowedExt
  {
    AfterLastDotOf("a.png", "gif");
    assert "a.png" + "." + "gif" == "a.png.gif";
  }

  /** Only the text after the last dot counts, in any letter case: `a.gif.JPG` passes. */
  lemma ExtensionLastDotAccepted()
    ensures ExtensionOf("a.gif.JPG") == "jpg" && "jpg" in AllowedExt
  {
    AfterLastDotOf("a.gif", "JPG");
    assert "a.gif" + "." + "JPG" == "a.gif.JPG";
  }

  /** A trailing dot leaves an empty extension, which is refused. */
  lemma ExtensionTrailingDotRejected()
    ensures ExtensionOf("photo.") == "" && "" !in AllowedExt
  {
  }

  /** The multipart part named `file`: absent, or present with a file name. */
  datatype UploadRequest = NoFilePart | FilePart(filename: string)

  /** Everything the upload handler depends on besides the request: the clock
      reading used as the name prefix, the upload directory, `secure_filename`,
      whether saving the file goes through, the id the store assigns, whether
      the insert commits and the row can be re-read, the server time stored as
      `created_at`, and the text of the exception when one is raised. */
  datatype UploadEnv = UploadEnv(
    stamp: string,
    uploadDir: string,
    sanitize: string -> string,
    saved: bool,
    assignedId: int,
    committed: bool,
    refreshed: bool,
    now: Timestamp,
    failure: string)

  /** The `data` of an accepted upload. */
  datatype UploadData = UploadData(imageId: int, originalName: string, status: string)

  /** Where the upload is stored: `<upload dir>/<stamp>_<secure name>`. */
  function StoredPath(filename: string, env: UploadEnv): (p: string)
    ensures EndsWith(p, env.stamp + "_" + env.sanitize(filename))
  {
    JoinPath(env.uploadDir, env.stamp + "_" + env.sanitize(filename))
  }

  /** Whether the request passes the three checks. */
  predicate ValidUpload(req: UploadRequest)
  {
    req.FilePart? && req.filename != "" && ExtensionOf(req.filename) in AllowedExt
  }

  /** Whether the insert lands: the store commits and the assigned id is new. */
  predicate Inserted(env: UploadEnv, store: map<int, Record>)
  {
    env.saved && env.committed && env.assignedId !in store
  }

  /** `upload_image`. The checks run in order, each answering 400 and changing
      nothing. A save or insert failure (an id the store already holds cannot
      be inserted) answers 500 and changes nothing; a failure after the commit
      answers 500 but keeps the row, with no job for it. Otherwise the row is
      created first, then its job is queued, and the answer is 202. */
  function UploadImage(s: State, req: UploadRequest, env: UploadEnv): (out: (State, Reply<UploadData>))
    ensures req.NoFilePart? ==> out.0 == s && IsError(out.1, "No file part", 400)
    ensures req.FilePart? && req.filename == "" ==> out.0 == s && IsError(out.1, "No file selected", 400)
    ensures req.FilePart? && req.filename != "" && ExtensionOf(req.filename) !in AllowedExt ==>
              out.0 == s && IsError(out.1, "Unsupported file type", 400)
    ensures ValidUpload(req) && !Inserted(env, s.store) ==> out.0 == s && IsError(out.1, env.failure, 500)
    ensures ValidUpload(req) && Inserted(env, s.store) ==>
              var id := env.assignedId;
              && out.0.store == s.store[id := NewRecord(id, req.filename, StoredPath(req.filename, env), env.now)]
              && (env.refreshed ==> out.0 == s.(store := out.0.store, queue := s.queue + [Work(Job(id, StoredPath(req.filename, env), req.filename))]))
              && (!env.refreshed ==> out.0 == s.(store := out.0.store) && IsError(out.1, env.failure, 500))
    ensures out.1.Json? && out.1.code == 202 <==> ValidUpload(req) && Inserted(env, s.store) && env.refreshed
    ensures out.1.Json? && out.1.code == 202 ==>
              out.1.body.status == "success" && out.1.body.data == Some(UploadData(env.assignedId, req.filename, "processing"))
  {
    if req.NoFilePart? then (s, ErrorResponse("No file part", 400))
    else if req.filename == "" then (s, ErrorResponse("No file selected", 400))
    else if ExtensionOf(req.filename) !in AllowedExt then (s, ErrorResponse("Unsupported file type", 400))
    else if !Inserted(env, s.store) then (s, ErrorResponse(env.failure, 500))
    else
      var id := env.assignedId;
      var path := StoredPath(req.filename, env);
      var created := s.(store := s.store[id := NewRecord(id, req.filename, path, env.now)]);
      if !env.refreshed then (created, ErrorResponse(env.failure, 500))
      else (Enqueue(created, Job(id, path, req.filename)), SuccessResponse(UploadData(id, req.filename, "processing"), 202))
  }

  // ---------------------------------------------------------------------------
  // Thumbnail URLs, listing and details
  // ---------------------------------------------------------------------------

  /** `url_for("routes_bp.get_thumbnail", image_id=..., size=...)`, kept symbolic. */
  datatype ThumbUrl = ThumbUrl(imageId: int, size: string)

  /** `build_thumbnail_urls`: one URL per size, each naming the image and its size. */
  function ThumbnailUrls(imageId: int): (urls: map<string, ThumbUrl>)
    ensures urls.Keys == {"small", "medium"}
    ensures forall size :: size in urls ==> urls[size] == ThumbUrl(imageId, size)
  {
    map["small" := ThumbUrl(imageId, "small"), "medium" := ThumbUrl(imageId, "medium")]
  }

  /** Whether a record's thumbnails column is truthy: present and not empty. */
  predicate HasThumbnails(r: Record)
  {
    r.thumbnails.Some? && r.thumbnails.value != map[]
  }

  /** The URL map a view shows for a record: the two URLs when the record has
      thumbnails, and nothing otherwise. */
  function ViewUrls(r: Record): (urls: map<string, ThumbUrl>)
    ensures HasThumbnails(r) ==> urls == ThumbnailUrls(r.id)
    ensures !HasThumbnails(r) ==> urls == map[]
  {
    if HasThumbnails(r) then ThumbnailUrls(r.id) else map[]
  }

  /** A view's URL map has both sizes or none. */
  lemma ViewUrlsAllOrNothing(r: Record)
    ensures ViewUrls(r).Keys == {"small", "medium"} || ViewUrls(r).Keys == {}
    ensures ViewUrls(r).Keys == {} <==> !HasThumbnails(r)
  {
    if HasThumbnails(r) {
      assert "small" in ViewUrls(r);
    }
  }

  /** One entry of the listing. */
  datatype Summary = Summary(
    imageId: int,
    originalName: string,
    processedAt: Option<Timestamp>,
    status: Status,
    thumbnails: map<string, ThumbUrl>)

  /** `list_images`: one summary per row, in the order the query returns them. */
  function ListImages(rows: seq<Record>): (r: Reply<seq<Summary>>)
    ensures r.Json? && r.code == 200 && r.body.status == "success" && r.body.data.Some?
    ensures |r.body.data.value| == |rows|
    ensures forall i :: 0 <= i < |rows| ==>
              r.body.data.value[i] == Summary(rows[i].id, rows[i].originalName, rows[i].processedAt,
                                              rows[i].status, ViewUrls(rows[i]))
  {
    SuccessResponse(seq(|rows|, i requires 0 <= i < |rows| =>
      Summary(rows[i].id, rows[i].originalName, rows[i].processedAt, rows[i].status, ViewUrls(rows[i]))), 200)
  }

  /** The `data` of the detail view. */
  datatype Details = Details(
    imageId: int,
    originalName: string,
    status: Status,
    createdAt: Option<Timestamp>,
    processedAt: Option<Timestamp>,
    metadata: Option<Metadata>,
    thumbnails: map<string, ThumbUrl>,
    caption: Option<string>)

  /** `get_image_details`: 404 when no record has the id, otherwise the record's
      fields with the view's URL map. */
  function ImageDetails(store: map<int, Record>, imageId: int): (r: Reply<Details>)
    ensures imageId !in store <==> IsError(r, "Image not found", 404)
    ensures imageId in store ==>
              var rec := store[imageId];
              && r.Json? && r.code == 200 && r.body.status == "success"
              && r.body.data == Some(Details(rec.id, rec.originalName, rec.status, rec.createdAt,
                                             rec.processedAt, rec.metadata, ViewUrls(rec), rec.caption))
  {
    if imageId !in store then ErrorResponse("Image not found", 404)
    else
      var rec := store[imageId];
      SuccessResponse(Details(rec.id, rec.originalName, rec.status, rec.createdAt,
                              rec.processedAt, rec.metadata, ViewUrls(rec), rec.caption), 200)
  }

  // ---------------------------------------------------------------------------
  // Serving a thumbnail
  // ---------------------------------------------------------------------------

  /** The sizes a thumbnail can be asked for. */
  const ValidSizes: set<string> := {"small", "medium"}

  /** `get_thumbnail`: an unknown size is refused before the store is looked at;
      a missing record, an empty thumbnails column or a missing size answers
      404 "Thumbnail not found"; a recorded path that is not on disk answers
      404 "File missing"; otherwise the file is sent. */
  function GetThumbnail(store: map<int, Record>, imageId: int, size: string, onDisk: set<string>): (r: Reply<()>)
    ensures size !in ValidSizes <==> IsError(r, "Invalid size", 400)
    ensures size in ValidSizes && (imageId !in store || !HasThumbnails(store[imageId])
                                   || size !in store[imageId].thumbnails.value) ==>
              IsError(r, "Thumbnail not found", 404)
    ensures r.File? <==>
              && size in ValidSizes && imageId in store && HasThumbnails(store[imageId])
              && size in store[imageId].thumbnails.value
              && store[imageId].thumbnails.value[size] in onDisk
    ensures r.File? ==> r.path == store[imageId].thumbnails.value[size]
    ensures IsError(r, "File missing", 404) <==>
              && size in ValidSizes && imageId in store && HasThumbnails(store[imageId])
              && size in store[imageId].thumbnails.value
              && store[imageId].thumbnails.value[size] !in onDisk
  {
    if size !in ValidSizes then ErrorResponse("Invalid size", 400)
    else if imageId !in store || !HasThumbnails(store[imageId]) || size !in store[imageId].thumbnails.value then
      ErrorResponse("Thumbnail not found", 404)
    else
      var path := store[imageId].thumbnails.value[size];
      if path !in onDisk then ErrorResponse("File missing", 404) else File(path)
  }

  // ---------------------------------------------------------------------------
  // Statistics
  // ---------------------------------------------------------------------------

  /** Number of rows with status `st`. */
  function CountStatus(rows: seq<Record>, st: Status): (n: nat)
    ensures n <= |rows|
    ensures n == 0 <==> forall i :: 0 <= i < |rows| ==> rows[i].status != st
    ensures n == |rows| <==> forall i :: 0 <= i < |rows| ==> rows[i].status == st
  {
    if |rows| == 0 then 0
    else CountStatus(rows[..|rows| - 1], st) + (if rows[|rows| - 1].status == st then 1 else 0)
  }

  /** Number of rows whose status is none of the three the application writes. */
  function CountOther(rows: seq<Record>): (n: nat)
    ensures n <= |rows|
    ensures n == 0 <==> forall i :: 0 <= i < |rows| ==> !rows[i].status.Other?
  {
    if |rows| == 0 then 0
    else CountOther(rows[..|rows| - 1]) + (if rows[|rows| - 1].status.Other? then 1 else 0)
  }

  /** One row counts once for its own status and not at all for any other. */
  lemma CountOne(r: Record, st: Status)
    ensures CountStatus([r], st) == if r.status == st then 1 else 0
    ensures CountOther([r]) == if r.status.Other? then 1 else 0
  {
    assert [r][..0] == [];
  }

  /** Counting is additive over concatenated rows: with `CountOne`, this fixes
      the count for every mix of statuses. */
  lemma {:induction false} CountStatusAppend(a: seq<Record>, b: seq<Record>, st: Status)
    ensures CountStatus(a + b, st) == CountStatus(a, st) + CountStatus(b, st)
    decreases |b|
  {
    if |b| == 0 {
      assert a + b == a;
    } else {
      var init := b[..|b| - 1];
      assert (a + b)[..|a + b| - 1] == a + init;
      assert (a + b)[|a + b| - 1] == b[|b| - 1];
      CountStatusAppend(a, init, st);
    }
  }

  /** The count of other statuses is additive over concatenated rows. */
  lemma {:induction false} CountOtherAppend(a: seq<Record>, b: seq<Record>)
    ensures CountOther(a + b) == CountOther(a) + CountOther(b)
    decreases |b|
  {
    if |b| == 0 {
      assert a + b == a;
    } else {
      var init := b[..|b| - 1];
      assert (a + b)[..|a + b| - 1] == a + init;
      assert (a + b)[|a + b| - 1] == b[|b| - 1];
      CountOtherAppend(a, init);
    }
  }

  /** The four status classes partition the rows. */
  lemma {:induction false} StatusPartition(rows: seq<Record>)
    ensures CountStatus(rows, Success) + CountStatus(rows, Failed) + CountStatus(rows, Processing)
            + CountOther(rows) == |rows|
  {
    if |rows| > 0 {
      StatusPartition(rows[..|rows| - 1]);
    }
  }

  /** Whether a row has both timestamps. */
  predicate Timed(r: Record)
  {
    r.createdAt.Some? && r.processedAt.Some?
  }

  /** `(processed_at - created_at).total_seconds()`, timestamps being in microseconds. */
  function Duration(r: Record): real
    requires Timed(r)
  {
    (r.processedAt.value - r.createdAt.value) as real / 1000000.0
  }

  /** The processing times in seconds of the rows that have both timestamps, in
      row order: every row counts exactly when every row is timed, and the list
      is empty exactly when none is. */
  function Durations(rows: seq<Record>): (d: seq<real>)
    ensures |d| <= |rows|
    ensures |d| == |rows| <==> forall i :: 0 <= i < |rows| ==> Timed(rows[i])
    ensures d == [] <==> forall i :: 0 <= i < |rows| ==> !Timed(rows[i])
  {
    if |rows| == 0 then []
    else
      var r := rows[|rows| - 1];
      Durations(rows[..|rows| - 1]) + (if Timed(r) then [Duration(r)] else [])
  }

  /** One row contributes its own processing time when it is timed, and nothing otherwise. */
  lemma DurationsOne(r: Record)
    ensures Durations([r]) == if Timed(r) then [Duration(r)] else []
  {
    assert [r][..0] == [];
  }

  /** The list for a concatenation of rows is the concatenation of their lists:
      with `DurationsOne`, this fixes the list for every mix of timed and untimed rows. */
  lemma {:induction false} DurationsAppend(a: seq<Record>, b: seq<Record>)
    ensures Durations(a + b) == Durations(a) + Durations(b)
    decreases |b|
  {
    if |b| == 0 {
      assert a + b == a;
    } else {
      var init := b[..|b| - 1];
      var last := b[|b| - 1];
      assert (a + b)[..|a + b| - 1] == a + init;
      assert (a + b)[|a + b| - 1] == last;
      DurationsAppend(a, init);
      var tail := if Timed(last) then [Duration(last)] else [];
      assert Durations(a + b) == Durations(a + init) + tail;
      assert Durations(b) == Durations(init) + tail;
      assert Durations(a) + Durations(init) + tail == Durations(a) + (Durations(init) + tail);
    }
  }

  /** When every row is timed, the list holds each row's own processing time, in row order. */
  lemma {:induction false} DurationsAllTimed(rows: seq<Record>)
    requires forall i :: 0 <= i < |rows| ==> Timed(rows[i])
    ensures |Durations(rows)| == |rows|
    ensures forall i :: 0 <= i < |rows| ==> Durations(rows)[i] == Duration(rows[i])
  {
    if |rows| > 0 {
      var init := rows[..|rows| - 1];
      DurationsAllTimed(init);
      assert forall i :: 0 <= i < |init| ==> init[i] == rows[i];
    }
  }

  function Sum(xs: seq<real>): real
  {
    if |xs| == 0 then 0.0 else Sum(xs[..|xs| - 1]) + xs[|xs| - 1]
  }

  /** The mean, and 0 for no values. */
  function Mean(xs: seq<real>): (m: real)
    ensures |xs| == 0 ==> m == 0.0
    ensures |xs| > 0 ==> m * (|xs| as real) == Sum(xs)
  {
    if |xs| == 0 then 0.0 else Sum(xs) / (|xs| as real)
  }

  /** The `data` of the statistics view, before rounding. */
  datatype StatsData = StatsData(
    total: nat,
    successful: nat,
    failed: nat,
    processing: int,
    successRate: real,
    averageSeconds: real)

  /** The success percentage: 0 with no rows, otherwise `successful / total * 100`. */
  function SuccessRate(successful: nat, total: nat): (rate: real)
    ensures total == 0 ==> rate == 0.0
    ensures successful <= total ==> 0.0 <= rate <= 100.0
    ensures total > 0 ==> rate * (total as real) == (successful as real) * 100.0
  {
    if total == 0 then 0.0
    else
      var t := total as real;
      var q := (successful as real) / t;
      assert q * t == successful as real;
      assert successful <= total ==> q <= 1.0 by {
        if successful <= total {
          assert q * t <= 1.0 * t;
        }
      }
      q * 100.0
  }

  /** `get_stats`: counts by status, the rest counted as processing, the success
      percentage (0 with no rows) and the mean processing time in seconds over
      the rows that have both timestamps (0 with none). */
  function Stats(rows: seq<Record>): (st: StatsData)
    ensures st.total == |rows|
    ensures st.successful == CountStatus(rows, Success) && st.failed == CountStatus(rows, Failed)
    ensures st.processing == CountStatus(rows, Processing) + CountOther(rows)
    ensures st.processing >= 0
    ensures st.successRate == SuccessRate(st.successful, st.total)
    ensures st.total == 0 ==> st.successRate == 0.0
    ensures 0.0 <= st.successRate <= 100.0
    ensures st.averageSeconds == Mean(Durations(rows))
  {
    var total := |rows|;
    var successful := CountStatus(rows, Success);
    var failed := CountStatus(rows, Failed);
    StatusPartition(rows);
    StatsData(total, successful, failed, total - successful - failed, SuccessRate(successful, total),
              Mean(Durations(rows)))
  }

  /** When every status is one the application writes, the processing figure is
      exactly the number of rows still processing. */
  lemma ProcessingCountsProcessing(rows: seq<Record>)
    requires forall i :: 0 <= i < |rows| ==> !rows[i].status.Other?
    ensures Stats(rows).processing == CountStatus(rows, Processing)
  {
    assert CountOther(rows) == 0 by { NoOther(rows); }
  }

  lemma {:induction false} NoOther(rows: seq<Record>)
    requires forall i :: 0 <= i < |rows| ==> !rows[i].status.Other?
    ensures CountOther(rows) == 0
  {
    if |rows| > 0 {
      NoOther(rows[..|rows| - 1]);
    }
  }

  /** A sum of values between `lo` and `hi` lies between `n * lo` and `n * hi`. */
  lemma {:induction false} SumBounds(xs: seq<real>, lo: real, hi: real)
    requires forall i :: 0 <= i < |xs| ==> lo <= xs[i] <= hi
    ensures (|xs| as real) * lo <= Sum(xs) <= (|xs| as real) * hi
  {
    if |xs| > 0 {
      SumBounds(xs[..|xs| - 1], lo, hi);
    }
  }

  /** The mean lies between the smallest and largest value. */
  lemma MeanBounds(xs: seq<real>, lo: real, hi: real)
    requires |xs| > 0
    requires forall i :: 0 <= i < |xs| ==> lo <= xs[i] <= hi
    ensures lo <= Mean(xs) <= hi
  {
    SumBounds(xs, lo, hi);
    var n := |xs| as real;
    assert Sum(xs) / n >= lo by {
      assert Sum(xs) >= n * lo;
    }
    assert Sum(xs) / n <= hi by {
      assert Sum(xs) <= n * hi;
    }
  }

  /** Two finished rows that took 2 s and 4 s average to 3 s; a row still
      processing is ignored. */
  lemma AverageExample(a: Record, b: Record, c: Record)
    requires a.createdAt == Some(0) && a.processedAt == Some(2000000)
    requires b.createdAt == Some(10000000) && b.processedAt == Some(14000000)
    requires c.processedAt.None?
    ensures Stats([a, c, b]).averageSeconds == 3.0
  {
    var rows := [a, c, b];
    assert rows[..2] == [a, c];
    assert rows[..2][..1] == [a];
    assert [a][..0] == [];
    assert Durations([a]) == [2.0];
    assert Durations([a, c]) == [2.0];
    assert Durations(rows) == [2.0, 4.0];
    assert [2.0, 4.0][..1] == [2.0];
    assert Sum([2.0, 4.0]) == 6.0;
  }
}
