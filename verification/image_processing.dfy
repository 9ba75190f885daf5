/** The per-image work the worker runs (`process_image_task`): opening the
    upload, the metadata document, best-effort EXIF, the thumbnails and the
    caption chain. The imaging, EXIF and captioning libraries are not modelled:
    each of their calls is an outcome supplied in a `TaskEnv`. */
module ImageProcessing {
  import opened Basics
  import opened Text
  import opened ImageModel
  import opened Thumbnails
  import opened Captions

  // ---------------------------------------------------------------------------
  // EXIF
  // ---------------------------------------------------------------------------

  /** What reading the EXIF block gives: the tags found (possibly none), or an error. */
  datatype ExifRead = Tags(tags: map<string, string>) | ExifError

  /** `extract_exif`: the tags when there are any, and `None` both when there are
      none and when reading raised. It never raises. */
  function ExtractExif(read: ExifRead): (r: Option<map<string, string>>)
    ensures r.Some? ==> r.value != map[] && read == Tags(r.value)
    ensures r.None? <==> read.ExifError? || read.tags == map[]
  {
    match read
    case ExifError => None
    case Tags(tags) => if tags == map[] then None else Some(tags)
  }

  // ---------------------------------------------------------------------------
  // The whole task
  // ---------------------------------------------------------------------------

  /** Size and modification time of the stored upload (`os.path.getsize`, `getmtime`). */
  datatype FileStat = FileStat(sizeBytes: nat, modified: Timestamp)

  /** The outcomes of every library call and clock reading one task makes. */
  datatype TaskEnv = TaskEnv(
    stamp: string,                 // the first clock reading, as "%Y%m%d%H%M%S%f"
    metadataClock: Timestamp,      // the clock reading stored as metadata "processed_at"
    finishClock: Timestamp,        // the clock reading returned as "processed_at"
    image: Option<SourceImage>,    // opening the upload; None when it raised
    fileStat: Option<FileStat>,    // the two stat calls; None when one raised
    exif: ExifRead,
    thumbFault: Option<nat>,       // the thumbnail iteration that raises, if any
    captionModel: Option<string>,  // the local model's raw caption; None when it raised
    reopened: Option<SourceImage>) // reopening for the fallback caption; None when it raised

  /** The exceptions that escape `process_image_task`. */
  datatype TaskError = OpenFailed | StatFailed | ThumbnailFailed(size: string)

  /** The stages of `process_image_task` in the order they run. */
  datatype Stage = OpenImage | ReadMetadata | ReadExif | MakeThumbnails | MakeCaption

  const StageOrder: seq<Stage> := [OpenImage, ReadMetadata, ReadExif, MakeThumbnails, MakeCaption]

  /** What a successful task hands to the worker. */
  datatype TaskResult = TaskResult(
    storedPath: string,
    processedAt: Timestamp,
    metadata: Metadata,
    thumbnails: map<string, string>,
    caption: string)

  /** `metadata["format"]`: the lower-cased format name, or null when there is none. */
  function FormatTag(format: Option<string>): (tag: Option<string>)
    ensures tag.Some? ==> format.Some? && tag.value == Lower(format.value) && tag.value != ""
    ensures tag.None? <==> format.None? || format.value == ""
  {
    if format.Some? && format.value != "" then Some(Lower(format.value)) else None
  }

  /** Whether every thumbnail iteration completes. */
  predicate ThumbnailsSucceed(fault: Option<nat>)
  {
    fault.None? || fault.value >= |ThumbSizes|
  }

  /** `process_image_task`: open, metadata, EXIF, thumbnails, caption, in that
      order. Opening, stat and thumbnail errors propagate and end processing; EXIF
      and caption problems never do. `stages` lists the stages that ran. */
  method ProcessImageTask(storedPath: string, originalName: string, thumbDir: string,
                          sanitize: string -> string, env: TaskEnv)
    returns (stages: seq<Stage>, written: seq<ThumbFile>, result: Result<TaskResult, TaskError>)
    ensures 1 <= |stages| <= |StageOrder| && stages == StageOrder[..|stages|]
    ensures result.Ok? <==> stages == StageOrder
    ensures result.Ok? <==> env.image.Some? && env.fileStat.Some? && ThumbnailsSucceed(env.thumbFault)
    ensures env.image.None? ==> result == Err(OpenFailed) && stages == [OpenImage]
    ensures env.image.Some? && env.fileStat.None? ==> result == Err(StatFailed) && stages == StageOrder[..2]
    ensures env.image.Some? && env.fileStat.Some? && !ThumbnailsSucceed(env.thumbFault) ==>
              && result == Err(ThumbnailFailed(ThumbSizes[env.thumbFault.value].size))
              && stages == StageOrder[..4]
    ensures result.Err? && result.error.ThumbnailFailed? ==> stages[|stages| - 1] == MakeThumbnails
    ensures env.image.None? || env.fileStat.None? ==> written == []
    ensures env.image.Some? && env.fileStat.Some? ==>
              written == Plan(env.image.value, sanitize(originalName), env.stamp, thumbDir)[..Completed(env.thumbFault)]
    ensures result.Ok? ==>
      var img := env.image.value;
      var res := result.value;
      && res.storedPath == storedPath
      && res.processedAt == env.finishClock
      && res.metadata.width == img.width && res.metadata.height == img.height
      && res.metadata.format == FormatTag(img.format)
      && res.metadata.sizeBytes == env.fileStat.value.sizeBytes
      && res.metadata.fileDatetime == env.fileStat.value.modified
      && res.metadata.processedAt == env.metadataClock
      && res.metadata.exif == ExtractExif(env.exif)
      && res.thumbnails.Keys == ThumbLabels
      && (forall i :: 0 <= i < |written| ==> written[i].size in res.thumbnails && res.thumbnails[written[i].size] == written[i].path)
      && res.caption == LocalCaption(env.captionModel, env.reopened)
  {
    written := [];
    if env.image.None? {
      stages, result := StageOrder[..1], Err(OpenFailed);
      return;
    }
    var img := env.image.value;

    if env.fileStat.None? {
      stages, result := StageOrder[..2], Err(StatFailed);
      return;
    }
    var stat := env.fileStat.value;
    var metadata := Metadata(img.width, img.height, FormatTag(img.format), stat.sizeBytes,
                             stat.modified, env.metadataClock, None);

    var exif := ExtractExif(env.exif);
    if exif.Some? {
      metadata := metadata.(exif := exif);
    }

    var thumbs;
    written, thumbs := GenerateThumbnails(img, sanitize(originalName), env.stamp, thumbDir, env.thumbFault);
    if thumbs.Err? {
      stages, result := StageOrder[..4], Err(ThumbnailFailed(thumbs.error));
      return;
    }

    var caption := LocalCaption(env.captionModel, env.reopened);
    stages := StageOrder;
    result := Ok(TaskResult(storedPath, env.finishClock, metadata, thumbs.value, caption));
  }
}
