/** The persisted image record (the `images` table) and its initial state. */
module ImageModel {
  import opened Basics

  /** A point in time, in microseconds since the epoch (a `datetime`). */
  type Timestamp = int

  /** The `status` column. The column is a free string; the application only ever
      writes the three named values, and `Other` stands for anything else. */
  datatype Status = Processing | Success | Failed | Other(text: string)

  /** The JSON `image_metadata` document the worker stores. The `exif` key is
      present (`Some`) only when EXIF extraction produced tags. */
  datatype Metadata = Metadata(
    width: nat,
    height: nat,
    format: Option<string>,
    sizeBytes: nat,
    fileDatetime: Timestamp,
    processedAt: Timestamp,
    exif: Option<map<string, string>>)

  /** One row of `images`. `originalName` and `storedPath` are non-null columns;
      the four nullable columns are `Option`s. */
  datatype Record = Record(
    id: int,
    originalName: string,
    storedPath: string,
    createdAt: Option<Timestamp>,
    processedAt: Option<Timestamp>,
    metadata: Option<Metadata>,
    thumbnails: Option<map<string, string>>,
    caption: Option<string>,
    status: Status)

  /** A record the worker has not finished: still `processing`, with none of the
      worker's results present. */
  predicate Pending(r: Record)
  {
    && r.status == Processing
    && r.processedAt.None?
    && r.metadata.None?
    && r.thumbnails.None?
    && r.caption.None?
  }

  /** The row inserted for an upload: the store assigns `id`, the server default
      fills `created_at`, `status` takes its default and the rest stay null. */
  function NewRecord(id: int, originalName: string, storedPath: string, now: Timestamp): (r: Record)
    ensures Pending(r)
    ensures r.id == id && r.createdAt == Some(now)
    ensures r.originalName == originalName && r.storedPath == storedPath
  {
    Record(id, originalName, storedPath, Some(now), None, None, None, None, Processing)
  }
}
