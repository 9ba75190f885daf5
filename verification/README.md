# Image-ingestion pipeline, modelled in Dafny

This project models the core of a small image-ingestion service. Clients
upload an image over HTTP and get back `202` with the new record's id. One
background worker takes jobs off a FIFO queue in order. For each image it:

- reads the width, height, format, size and modification time;
- extracts EXIF tags when there are any;
- writes a `small` (128x128) and a `medium` (512x512) thumbnail;
- produces a caption through a fixed fallback chain:
  1. a local captioning model;
  2. a caption built from the image's metadata;
  3. a fixed string.

The worker then marks the record `success` with the results, or `failed`.
Read endpoints list the records, show one record, serve a thumbnail file and
report statistics.

Every library call becomes an outcome supplied as input: image decoding,
resizing, EXIF parsing, model inference, the database session and the
clock. The rest is modelled as pure functions over immutable datatypes:

- the record store is a `map<int, Record>`;
- the queue is a `seq<Item>`;
- the worker is a step function over both.

Modules, in dependency order:

| module | file | what it holds |
|---|---|---|
| `Basics` | basics.dfy | `Option`, `Result` |
| `Text` | text.dfy | the Python string operations the code relies on: `lower`, `startswith`/`endswith`, `strip`, `rsplit(".", 1)[-1]`, `str(int)`, `os.path.join` |
| `ImageModel` | image_model.dfy | the `images` record, its status and metadata, and the row an upload inserts |
| `Thumbnails` | thumbnails.dfy | the size table, the output extension and colour mode, the file names, the loop that writes them |
| `Captions` | captions.dfy | caption clean-up and the three-step fallback chain |
| `ImageProcessing` | image_processing.dfy | best-effort EXIF, the metadata document, `process_image_task` |
| `Worker` | worker.dfy | `start_worker`, `enqueue_image_job`, the consumer loop |
| `Routes` | routes.dfy | upload validation and record creation, thumbnail lookup, URL maps, listing, details, statistics |
| `Pipeline` | pipeline.dfy | the invariant that uploads, start-up and the loop share, and two upload-to-serving runs |

Four points about the code's behaviour that are easy to get wrong:

- **Empty captions.** The model's caption is returned after clean-up even when clean-up leaves nothing: `Captions.CleanCaptionCanBeEmpty` shows `"A picture of   "` becoming `""`. Only the two fallback captions are always non-empty.
- **Caption chain.** The chain has three steps: the local model, then the metadata caption, then the fixed caption. No remote captioning service is called.
- **Colour-mode conversion.** Only `RGBA` and `P` are converted to `RGB`. `LA`, `PA` and every other mode are saved as they are (`Thumbnails.SaveMode`).
- **Format case in the metadata caption.** The metadata caption uses the format exactly as the imaging library reports it (upper case, e.g. `JPEG`). Only `metadata.format` is lower-cased.

## Model

| member | source | states |
|---|---|---|
| ImageModel.NewRecord | app/models/imageModel.py:8-16 | The inserted row has the assigned id, both required names, a `created_at` set to the server time, status `processing`, and no processed time, metadata, thumbnails or caption. |
| Thumbnails.ThumbSizesTable | app/services/imageProcessing.py:10 | The table has exactly two entries, `small` bounded by 128x128 and `medium` by 512x512. Their labels are distinct and are exactly the thumbnail label set. |
| Thumbnails.OutputExtension | app/services/imageProcessing.py:29 | The extension is always `jpg` or `png`. It is `jpg` exactly when a format is present and its lower-cased form is `jpeg` or `jpg`. |
| Thumbnails.OutputExtensionCases | app/services/imageProcessing.py:29 | `JPEG` and `Jpg` give `jpg`. `PNG`, `GIF` and a missing format give `png`. |
| Thumbnails.ThumbnailName | app/services/imageProcessing.py:30-32 | The name starts with `<stamp>_<size>_<sanitized>` and is either that base or the base plus `.ext`. It is the base exactly when the lower-cased base already ends with `.ext`. For a lower-case extension, the lower-cased name always ends in `.ext`. |
| Thumbnails.ThumbnailNameSuffixRule | app/services/imageProcessing.py:30-32 | When the sanitized name is longer than the extension, the base is kept exactly when the name already ends, in any case, with `.ext`. Otherwise `.ext` is appended. |
| Thumbnails.ThumbnailNameShortName | app/services/imageProcessing.py:30-32 | For a table size and a `jpg` or `png` extension, a sanitized name no longer than the extension, such as a bare `PNG`, always gets `.ext` appended. |
| Thumbnails.ThumbnailNameRule | app/services/imageProcessing.py:29-32 | For a table size and a `jpg` or `png` extension, the name is kept exactly when the sanitized name is longer than the extension and already ends, in any case, with `.ext`. In every other case `.ext` is appended. |
| Thumbnails.ThumbnailNameBarePng | app/services/imageProcessing.py:30-32 | A bare `PNG` with extension `png` becomes `<stamp>_small_PNG.png`. |
| Thumbnails.ThumbnailNameKeepsUpperCaseExtension | app/services/imageProcessing.py:30-32 | `x.JPG` with extension `jpg` keeps its name unchanged. |
| Thumbnails.ThumbnailNameAppendsAfterJpeg | app/services/imageProcessing.py:30-32 | `x.jpeg` with extension `jpg` gets `.jpg` appended after `.jpeg`. |
| Thumbnails.DistinctSizeNames | app/services/imageProcessing.py:30 | For the same stamp, upload name and extension, the small and the medium thumbnail never share a file name. |
| Thumbnails.SaveMode | app/services/imageProcessing.py:34-35 | The saved mode is never `RGBA` or `P`. It differs from the source mode exactly when that mode is `RGBA` or `P`, and then it is `RGB`. |
| Thumbnails.PathsOfDistinct | app/services/imageProcessing.py:37 | When no two written files share a size label, the map's keys are exactly their labels and each label maps to its own file's path. |
| Thumbnails.TablePaths | app/services/imageProcessing.py:26-37 | After a full run, the returned map's keys are exactly `small` and `medium`, each mapping to the path written for it. |
| Thumbnails.WriteFiles | app/services/imageProcessing.py:26-39 | Files are written in table order up to the iteration that raises. The error names that iteration's size. Without a failure, the map covers every file. |
| Thumbnails.GenerateThumbnails | app/services/imageProcessing.py:24-39 | Success comes exactly when no iteration raises, and then the map's keys are exactly the two labels, each mapped to its written path. Otherwise the files of earlier sizes stay written and the failing size is reported. |
| ImageProcessing.ExtractExif | app/services/imageProcessing.py:42-49 | The result is absent exactly when reading fails or finds no tags. Otherwise it is exactly the tags read. It never fails. |
| Captions.CleanCaption | app/services/imageProcessing.py:69-75 | The cleaned caption neither starts nor ends with whitespace and is no longer than the raw one. |
| Captions.CleanCaptionDropsPictureOf | app/services/imageProcessing.py:70-71 | A caption starting with `a picture of `, in any letter case, becomes the rest, stripped. |
| Captions.CleanCaptionDropsImageOf | app/services/imageProcessing.py:72-73 | A caption starting with `an image of `, in any letter case, becomes the rest, stripped. |
| Captions.CleanCaptionOnePrefixOnly | app/services/imageProcessing.py:70-73 | Only one prefix is removed: in `a picture of an image of x`, the second prefix survives. |
| Captions.CleanCaptionCanBeEmpty | app/services/imageProcessing.py:69-75 | The clean-up can return the empty string. |
| Captions.CleanCaptionWithoutPrefix | app/services/imageProcessing.py:69-75 | A caption starting with neither prefix, in any case, is only stripped of surrounding whitespace. |
| Captions.CleanCaptionKeeps | app/services/imageProcessing.py:69-75 | A trimmed caption with neither prefix is returned unchanged. |
| Captions.FormatText | app/services/imageProcessing.py:82 | The format text is never empty. It is the reported format when there is a non-empty one, and `unknown format` otherwise. |
| Captions.MetadataCaption | app/services/imageProcessing.py:82 | The metadata caption starts with `An image (`, ends with `)`, and between them holds `<width>x<height>, <format text>` with both numbers in decimal. |
| Captions.MetadataCaptionIsClean | app/services/imageProcessing.py:82 | The metadata caption starts with `An image (` and would not be changed by the clean-up. |
| Captions.UploadedCaptionIsClean | app/services/imageProcessing.py:84 | `An uploaded image` does not start with `An image (` and would not be changed by the clean-up. |
| Captions.LocalCaption | app/services/imageProcessing.py:52-84 | A model caption is returned cleaned up. Without one, the result is the metadata caption when the file could be reopened and `An uploaded image` otherwise. Either fallback is non-empty and unchanged by clean-up, and only the metadata caption starts with `An image (`. |
| ImageProcessing.FormatTag | app/services/imageProcessing.py:94 | The tag is absent exactly when the source has no format or an empty one; otherwise it is the lower-cased format. |
| ImageProcessing.ProcessImageTask | app/services/imageProcessing.py:87-113 | The stages run in order and stop at the first error. An open failure stops after opening and a stat failure after reading metadata, with no thumbnail written. A thumbnail failure stops after the thumbnail stage and names the failing size. Whenever the file opens and stats, the thumbnails written are exactly the planned files up to the failing iteration. On success: the metadata carries the image's dimensions, the lower-cased format, the file's size and modification time, and the EXIF tags only when there are any; the map has exactly the two labels; the caption is the fallback chain's. |
| Worker.Initial | app/services/worker.py:7-8 | At import time nothing is started and the queue is empty. |
| Worker.StartWorker | app/services/worker.py:10-13 | The first call starts one loop. Any later call changes nothing. |
| Worker.StartWorkerIdempotent | app/services/worker.py:10-13 | Starting twice is the same as starting once. |
| Worker.Enqueue | app/services/worker.py:54-55 | The job is appended to the back of the queue and nothing else changes. |
| Worker.Succeeded | app/services/worker.py:30-34 | The success path overwrites thumbnails, metadata, caption and processed time with the processing result's values and sets `success`. The id, names and creation time are kept. |
| Worker.MarkedFailed | app/services/worker.py:41-45 | The failure path changes only the status, to `failed`. |
| Worker.RunJob | app/services/worker.py:25-45 | One job touches at most its own record and never adds or removes one. It applies the success update when processing and its session succeed, and otherwise the failure update when the failure session succeeds. With a missing record, or a failure session that also raises, the store is unchanged. |
| Worker.Step | app/services/worker.py:17-47 | A running loop takes the head of the queue. The sentinel stops the loop without a `task_done`. A job is handled with exactly one `task_done`, whatever its outcome, and the loop keeps running. |
| Worker.Drain | app/services/worker.py:17-47 | The loop runs until it has taken a sentinel or the queue is empty. It never changes whether the worker was started, or how many loops there are. |
| Worker.DrainFifo | app/services/worker.py:15-47 | A running loop handles exactly the jobs queued before the first sentinel, in enqueue order, one `task_done` each. |
| Worker.DrainStops | app/services/worker.py:19-20 | The loop stops exactly when a sentinel was queued and leaves what follows it. |
| Worker.DrainStore | app/services/worker.py:28-29 | Draining keeps the store's ids. A record whose id no handled job carries is unchanged. |
| Worker.AtMostOneLoop | app/services/worker.py:10-13 | Under any sequence of starts, enqueues and loop turns, at most one loop is ever started, and only after a start. |
| Routes.ErrorResponse | app/routes.py:15-16 | An error reply has the given code, status `error`, no data, and the message. |
| Routes.ExtensionOf | app/routes.py:31 | The extension contains no dot. It is the lower-cased tail of the name, preceded by a dot unless it is the whole name. |
| Routes.ExtensionBareAccepted | app/routes.py:31 | A bare `PNG`, with no dot, is accepted. |
| Routes.ExtensionBareRejected | app/routes.py:31 | A bare `photo` is rejected. |
| Routes.ExtensionLastDotRejected | app/routes.py:31 | `a.png.gif` is rejected: only the text after the last dot counts. |
| Routes.ExtensionLastDotAccepted | app/routes.py:31 | `a.gif.JPG` is accepted, in any letter case. |
| Routes.ExtensionTrailingDotRejected | app/routes.py:31 | `photo.` leaves an empty extension, which is rejected. |
| Text.AfterLastDotOf | app/routes.py:31 | The text after a dot with no later dot is what the extension split returns. |
| Routes.StoredPath | app/routes.py:38-40 | The stored file's path ends with `<stamp>_<secure name>`. |
| Routes.UploadImage | app/routes.py:24-62 | The checks run in order, each answering 400 with its message and changing nothing: missing part, empty name, unsupported extension. A save or insert failure answers 500 and changes nothing. A failure after the commit answers 500 with the exception's text and keeps the row but queues no job. Otherwise the fresh row is created, its job is appended to the queue, and the answer is 202 with status `processing`. |
| Routes.ThumbnailUrls | app/routes.py:18-22 | The URL map has exactly the keys `small` and `medium`, each naming the image and that size. |
| Routes.ViewUrls | app/routes.py:73 | A record with non-empty thumbnails shows both URLs. Any other record shows none. |
| Routes.ViewUrlsAllOrNothing | app/routes.py:108 | A view's URL map holds both sizes or none, and none exactly when the record has no thumbnails. |
| Routes.ListImages | app/routes.py:66-83 | The listing has one summary per row, in row order, each with that row's id, name, processed time, status and URL map. |
| Routes.ImageDetails | app/routes.py:101-122 | An unknown id answers 404 `Image not found`. Otherwise the reply carries the record's fields and its URL map. |
| Routes.GetThumbnail | app/routes.py:85-97 | An invalid size answers 400 before any lookup. A missing record, empty thumbnails or a missing size answers 404 `Thumbnail not found`. A recorded path that is absent on disk answers 404 `File missing`. Otherwise that path is served. |
| Routes.CountStatus | app/routes.py:130-132 | The count is zero exactly when no row has the status, and equals the row count exactly when every row has it. |
| Routes.CountOther | app/routes.py:133 | No row is counted as `other` exactly when every status is one of the three the application writes. |
| Routes.CountOne | app/routes.py:130-133 | A single row counts once for its own status and not at all for any other; it counts as `other` exactly when its status is none of the three written ones. |
| Routes.CountStatusAppend | app/routes.py:130-132 | The count of a status over two runs of rows is the sum of their counts. With the single-row case, this gives the exact number of rows with that status for any mix of rows. |
| Routes.CountOtherAppend | app/routes.py:133 | The count of other statuses over two runs of rows is the sum of their counts. |
| Routes.StatusPartition | app/routes.py:130-133 | Success, failed, processing and any other status partition the rows. |
| Routes.SuccessRate | app/routes.py:134 | The rate is 0 with no rows. Otherwise rate times total equals successes times 100, and it lies in [0, 100] when successes do not exceed the total. |
| Routes.Stats | app/routes.py:126-156 | The counts are by status. `processing` is the processing rows plus any other status, so it is never negative. The success rate is 0 with no rows and lies in [0, 100]. The average is the mean processing time over rows with both timestamps. |
| Routes.ProcessingCountsProcessing | app/routes.py:133 | When every status is one of the three written ones, `processing` is exactly the number of processing rows. |
| Routes.Durations | app/routes.py:136-140 | Every row contributes exactly when every row has both timestamps, and none does exactly when none has both. |
| Routes.DurationsOne | app/routes.py:136-140 | A single row contributes its own processing time when it has both timestamps, and nothing otherwise. |
| Routes.DurationsAppend | app/routes.py:136-140 | The processing times of two runs of rows, one after the other, are those of the first followed by those of the second. With the single-row case, this gives exactly one entry per timed row, in row order, for any mix of rows. |
| Routes.DurationsAllTimed | app/routes.py:136-140 | When every row has both timestamps, the list holds each row's own processing time in seconds, in row order. |
| Routes.Mean | app/routes.py:141 | The mean is 0 with no values. Otherwise the mean times the number of values equals their sum. |
| Routes.MeanBounds | app/routes.py:141 | The average lies between the smallest and the largest processing time. |
| Routes.AverageExample | app/routes.py:136-141 | Rows that took 2 s and 4 s average to 3 s. A row without a processed time is ignored. |
| Text.NatToStringRoundTrip | app/services/imageProcessing.py:82 | The decimal rendering of the width and height reads back as the same number. |
| Pipeline.UploadKeepsInv | app/routes.py:43-48 | An upload keeps the shared invariant: every queued job has its record, and every record sits under its id. |
| Pipeline.StepKeepsInv | app/services/worker.py:19-36 | A loop turn keeps the shared invariant. |
| Pipeline.EventsKeepInv | app/services/worker.py:10-13 | Any interleaving of uploads, starts and loop turns keeps the invariant and never starts a second loop. |
| Pipeline.JobFindsRecord | app/services/worker.py:28-29 | In any reachable state, the job at the head of the queue has its record. |
| Pipeline.RunTask | app/services/imageProcessing.py:104-113 | A successful task always carries exactly the two thumbnail labels and the job's stored path. |
| Pipeline.AcceptedUpload | app/routes.py:43-48 | An accepted upload into an empty queue leaves its own job queued and its fresh, pending record stored. |
| Pipeline.UploadThenSuccess | app/services/worker.py:26-36 | After an upload and a successful job, the record is `success` with the processing result's fields. Each size is then served from its recorded path, or answers `File missing` when that file is absent. |
| Pipeline.UploadThenFailure | app/services/worker.py:38-45 | After an upload and a failed job, the record is exactly the row the upload inserted, with status `failed`: same id, names, stored path and creation time, and no processed time, metadata, thumbnails or caption. No thumbnail is served and no URLs are shown. |

## Left out

- Image decoding, resizing, encoding and saving: the imaging library is not modelled. An open failure, the iteration whose resize or save raises, and the reopened image are inputs. The resize box is recorded, but no output dimensions are claimed.
- EXIF parsing: the tags read, or a read error, are an input.
- The captioning model, including loading, device choice and inference: its raw caption, or its failure, is an input.
- Clocks and the file system: timestamps, the name stamp, file size, modification time and which paths exist are inputs. Timestamps are integer microseconds, and their ISO rendering is not modelled.
- `secure_filename` is a function parameter. `url_for` results are kept symbolic as `ThumbUrl(id, size)`.
- Database sessions: each store session is modelled by whether it goes through. A query that raises is folded into that flag. An upload's id collision is modelled as an insert that fails.
- Threads, the daemon thread, the blocking `get`, `task_done` synchronisation and `time.sleep` are not modelled. The consumer is one sequential step function, and `task_done` calls are counted.
- The worker's outer exception handler (app/services/worker.py:48-50) is modelled only by its effect. It catches the exception that a failing failure-path session raises (app/services/worker.py:40-45), after the `finally` has already called `task_done`, and keeps the loop alive. `Worker.RunJob` and `Worker.Step` give that case the same result: the store unchanged, one `task_done`, and the loop still running. The one-second sleep is not modelled, and neither is a malformed queue entry, which `enqueue_image_job` never produces.
- Logging is not modelled (app/services/worker.py:16,24,37,39,49; app/services/imageProcessing.py:18,20,38,48,78). No decision depends on it.
- The file saved by an upload whose insert then fails is not tracked; the store is unchanged either way.
- A request part whose file name is `None` is not modelled.
- Read handlers whose database session raises are not modelled.
- Routes.Stats: the float division and `round(..., 2)` are modelled as exact reals without rounding.
- Routes.ListImages: the row order is whatever the query returns, so it is an input.
- Routes.ViewUrls: the `isinstance(..., dict)` check in the listing is always true here, because thumbnails are a map.
- `health_check` (app/routes.py:158-164) is left out: it returns a constant and makes no decision.
- Text.Lower: only ASCII letters are lowered, while Python lowers all of Unicode. No decision in the model changes because of this:
  - every string compared against (`jpg`, `jpeg`, `png`, `a picture of `, `an image of `, `.jpg`, `.png`) is ASCII;
  - the only non-ASCII characters that lower to ASCII are U+212A (to `k`, absent from all of them) and U+0130 (to `i` plus a combining dot, which cannot match an ASCII string).
- Text.JoinPath: only the two-component form the code uses, and only the property that the path ends with the file name.
- Worker.Drain: each job's outcome is read from a function indexed by the `task_done` count, so outcomes cannot depend on anything else.
