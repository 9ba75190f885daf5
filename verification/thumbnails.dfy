/** Thumbnail generation (`generate_thumbnails`): the size table, the output
    extension and colour mode, the file names and the loop that writes one file
    per size. Resizing and encoding pixels are not modelled; only which files
    are written, under which names, and where the loop can stop. */
module Thumbnails {
  import opened Basics
  import opened Text

  /** One entry of the thumbnail table: a size label and the box passed to `thumbnail()`. */
  datatype ThumbSpec = ThumbSpec(size: string, maxWidth: nat, maxHeight: nat)

  /** `THUMB_SIZES`, in the dictionary's iteration order. */
  const ThumbSizes: seq<ThumbSpec> := [ThumbSpec("small", 128, 128), ThumbSpec("medium", 512, 512)]

  /** The size labels a thumbnails map is keyed by. */
  const ThumbLabels: set<string> := {"small", "medium"}

  /** The table has two entries with distinct labels, exactly `ThumbLabels`,
      bounded by 128x128 and 512x512. */
  lemma ThumbSizesTable()
    ensures |ThumbSizes| == 2 && ThumbSizes[0].size != ThumbSizes[1].size
    ensures forall i :: 0 <= i < |ThumbSizes| ==> ThumbSizes[i].size in ThumbLabels
    ensures forall l :: l in ThumbLabels ==> exists i :: 0 <= i < |ThumbSizes| && ThumbSizes[i].size == l
    ensures ThumbSizes[0].maxWidth == ThumbSizes[0].maxHeight == 128
    ensures ThumbSizes[1].maxWidth == ThumbSizes[1].maxHeight == 512
  {
    assert ThumbSizes[0].size == "small";
    assert ThumbSizes[1].size == "medium";
  }

  /** What the opened upload exposes to the pipeline. */
  datatype SourceImage = SourceImage(width: nat, height: nat, format: Option<string>, mode: string)

  /** The extension of every thumbnail of an image: JPEG-family sources give `jpg`, the rest `png`. */
  function OutputExtension(format: Option<string>): (ext: string)
    ensures ext == "jpg" || ext == "png"
    ensures ext == "jpg" <==> format.Some? && Lower(format.value) in {"jpeg", "jpg"}
  {
    if format.Some? && format.value != "" && Lower(format.value) in {"jpeg", "jpg"} then "jpg" else "png"
  }

  /** The extension table on the cases that matter: the upper-case names PIL reports,
      mixed case, a non-JPEG format and a missing one. */
  lemma OutputExtensionCases()
    ensures OutputExtension(Some("JPEG")) == "jpg"
    ensures OutputExtension(Some("Jpg")) == "jpg"
    ensures OutputExtension(Some("PNG")) == "png"
    ensures OutputExtension(Some("GIF")) == "png"
    ensures OutputExtension(None) == "png"
  {
    assert Lower("JPEG") == "jpeg";
    assert Lower("Jpg") == "jpg";
    assert Lower("PNG") == "png";
    assert Lower("GIF") == "gif";
  }

  /** `f"{timestamp}_{size}_{sanitized}"`, before any extension is added. */
  function ThumbnailBase(stamp: string, size: string, sanitized: string): string
  {
    stamp + "_" + size + "_" + sanitized
  }

  /** The thumbnail file name: `.ext` is appended unless the base already ends
      with it, compared case-insensitively. */
  function ThumbnailName(stamp: string, size: string, sanitized: string, ext: string): (name: string)
    ensures StartsWith(name, ThumbnailBase(stamp, size, sanitized))
    ensures IsLowered(ext) ==> EndsWith(Lower(name), "." + ext)
    ensures name == ThumbnailBase(stamp, size, sanitized)
         || name == ThumbnailBase(stamp, size, sanitized) + ("." + ext)
    ensures name == ThumbnailBase(stamp, size, sanitized)
        <==> EndsWith(Lower(ThumbnailBase(stamp, size, sanitized)), "." + ext)
  {
    var base := ThumbnailBase(stamp, size, sanitized);
    if EndsWith(Lower(base), "." + ext) then base
    else
      Affixes(base, "." + ext);
      LoweredAppend(".", ext);
      if IsLowered("." + ext) then
        LoweredSuffix(base, "." + ext);
        base + ("." + ext)
      else
        base + ("." + ext)
  }

  /** When the sanitized name is longer than the extension, the suffix test looks
      only at the sanitized name: an existing `.ext` in any case is kept, and any
      other ending gets `.ext` appended. */
  lemma ThumbnailNameSuffixRule(stamp: string, size: string, sanitized: string, ext: string)
    requires |sanitized| > |ext|
    ensures EndsWith(Lower(sanitized), "." + ext) ==>
              ThumbnailName(stamp, size, sanitized, ext) == ThumbnailBase(stamp, size, sanitized)
    ensures !EndsWith(Lower(sanitized), "." + ext) ==>
              ThumbnailName(stamp, size, sanitized, ext) == ThumbnailBase(stamp, size, sanitized) + ("." + ext)
  {
    var front := stamp + "_" + size + "_";
    var base := ThumbnailBase(stamp, size, sanitized);
    assert base == front + sanitized;
    LowerAppend(front, sanitized);
    var n := |"." + ext|;
    assert Lower(base)[|base| - n..] == Lower(sanitized)[|sanitized| - n..];
  }

  /** A sanitized name no longer than the extension (a bare `PNG`, or the `jpg`
      that `secure_filename` leaves of `中文.jpg`) always gets `.ext` appended:
      the `_` in front of it falls where the `.ext` ending would have to be. */
  lemma ThumbnailNameShortName(stamp: string, size: string, sanitized: string, ext: string)
    requires size in ThumbLabels && ext in {"jpg", "png"}
    requires |sanitized| <= |ext|
    ensures ThumbnailName(stamp, size, sanitized, ext) == ThumbnailBase(stamp, size, sanitized) + ("." + ext)
  {
    var base := ThumbnailBase(stamp, size, sanitized);
    var suffix := "." + ext;
    var k := |base| - |sanitized| - 1;
    assert base[k] == '_';
    assert Lower(base)[k] == '_';
    var j := |ext| - |sanitized|;
    assert suffix[j] != '_';
  }

  /** For the sizes of the table and the extensions `OutputExtension` gives, the
      name is kept exactly when the sanitized name itself is longer than the
      extension and already ends, in any case, with `.ext`; otherwise `.ext` is appended. */
  lemma ThumbnailNameRule(stamp: string, size: string, sanitized: string, ext: string)
    requires size in ThumbLabels && ext in {"jpg", "png"}
    ensures ThumbnailName(stamp, size, sanitized, ext) == ThumbnailBase(stamp, size, sanitized)
        <==> |sanitized| > |ext| && EndsWith(Lower(sanitized), "." + ext)
  {
    if |sanitized| > |ext| {
      ThumbnailNameSuffixRule(stamp, size, sanitized, ext);
    } else {
      ThumbnailNameShortName(stamp, size, sanitized, ext);
    }
  }

  /** A bare `PNG` upload with a PNG source gets `.png` appended. */
  lemma ThumbnailNameBarePng(stamp: string)
    ensures ThumbnailName(stamp, "small", "PNG", "png") == ThumbnailBase(stamp, "small", "PNG") + ".png"
  {
    ThumbnailNameShortName(stamp, "small", "PNG", "png");
  }

  /** `x.JPG` already carries a JPEG extension, in upper case, and is kept as it is. */
  lemma ThumbnailNameKeepsUpperCaseExtension(stamp: string)
    ensures ThumbnailName(stamp, "small", "x.JPG", "jpg") == ThumbnailBase(stamp, "small", "x.JPG")
  {
    var lowered := Lower("x.JPG");
    assert lowered[0] == 'x' && lowered[1] == '.' && lowered[2] == 'j' && lowered[3] == 'p' && lowered[4] == 'g';
    assert lowered[1..] == ".jpg";
    ThumbnailNameSuffixRule(stamp, "small", "x.JPG", "jpg");
  }

  /** `x.jpeg` does not end in `.jpg`, so `.jpg` is appended after it. */
  lemma ThumbnailNameAppendsAfterJpeg(stamp: string)
    ensures ThumbnailName(stamp, "small", "x.jpeg", "jpg") == ThumbnailBase(stamp, "small", "x.jpeg") + ".jpg"
  {
    var lowered := Lower("x.jpeg");
    assert lowered[2] == 'j';
    assert lowered[2..] != ".jpg";
    ThumbnailNameSuffixRule(stamp, "small", "x.jpeg", "jpg");
  }

  /** The two sizes of one upload never share a file name. */
  lemma DistinctSizeNames(stamp: string, sanitized: string, ext: string)
    ensures ThumbnailName(stamp, "small", sanitized, ext) != ThumbnailName(stamp, "medium", sanitized, ext)
  {
    var a := ThumbnailName(stamp, "small", sanitized, ext);
    var b := ThumbnailName(stamp, "medium", sanitized, ext);
    var k := |stamp| + 1;
    assert a[k] == ThumbnailBase(stamp, "small", sanitized)[k] == 's';
    assert b[k] == ThumbnailBase(stamp, "medium", sanitized)[k] == 'm';
  }

  /** The colour mode a thumbnail is saved in: palette and alpha images are flattened to RGB. */
  function SaveMode(mode: string): (m: string)
    ensures m != "RGBA" && m != "P"
    ensures m == mode || m == "RGB"
    ensures m != mode <==> mode in {"RGBA", "P"}
  {
    if mode in {"RGBA", "P"} then "RGB" else mode
  }

  /** A thumbnail file the loop writes: its size label, path, requested box and colour mode. */
  datatype ThumbFile = ThumbFile(size: string, path: string, bound: (nat, nat), mode: string)

  /** The file the loop writes for `spec`, if that iteration does not raise. */
  function PlannedFile(spec: ThumbSpec, img: SourceImage, sanitized: string, stamp: string, dir: string): (f: ThumbFile)
    ensures f.size == spec.size
  {
    var name := ThumbnailName(stamp, spec.size, sanitized, OutputExtension(img.format));
    ThumbFile(spec.size, JoinPath(dir, name), (spec.maxWidth, spec.maxHeight), SaveMode(img.mode))
  }

  /** The files the loop writes when no iteration raises, in table order. */
  function Plan(img: SourceImage, sanitized: string, stamp: string, dir: string): (plan: seq<ThumbFile>)
    ensures |plan| == |ThumbSizes|
    ensures forall i :: 0 <= i < |ThumbSizes| ==> plan[i].size == ThumbSizes[i].size
  {
    seq(|ThumbSizes|, i requires 0 <= i < |ThumbSizes| => PlannedFile(ThumbSizes[i], img, sanitized, stamp, dir))
  }

  /** How many loop iterations complete when iteration `fault` (if any) raises. */
  function Completed(fault: Option<nat>): (n: nat)
    ensures n <= |ThumbSizes|
  {
    if fault.Some? && fault.value < |ThumbSizes| then fault.value else |ThumbSizes|
  }

  /** The size-to-path map built from `files`, later entries overriding earlier ones. */
  function PathsOf(files: seq<ThumbFile>): map<string, string>
  {
    if |files| == 0 then map[]
    else PathsOf(files[..|files| - 1])[files[|files| - 1].size := files[|files| - 1].path]
  }

  /** When no two files share a size label, the map has one key per file and
      each key points at its own file. */
  lemma {:induction false} PathsOfDistinct(files: seq<ThumbFile>)
    requires forall i, j :: 0 <= i < j < |files| ==> files[i].size != files[j].size
    ensures PathsOf(files).Keys == set i | 0 <= i < |files| :: files[i].size
    ensures forall i :: 0 <= i < |files| ==> files[i].size in PathsOf(files) && PathsOf(files)[files[i].size] == files[i].path
  {
    if |files| > 0 {
      var init := files[..|files| - 1];
      PathsOfDistinct(init);
      assert forall i :: 0 <= i < |init| ==> init[i] == files[i];
    }
  }

  /** A full run's map, for any files labelled as the table is, is keyed by
      exactly the size labels, each pointing at the file written for it. */
  lemma TablePaths(files: seq<ThumbFile>)
    requires |files| == 2 && files[0].size == "small" && files[1].size == "medium"
    ensures PathsOf(files).Keys == ThumbLabels
    ensures forall i :: 0 <= i < |files| ==> files[i].size in PathsOf(files) && PathsOf(files)[files[i].size] == files[i].path
  {
    PathsOfDistinct(files);
    assert (set i | 0 <= i < |files| :: files[i].size) == {files[0].size, files[1].size};
  }

  /** The loop of `generate_thumbnails` over the files it would write: files are
      written in order until iteration `fault` (if any) raises; the files of
      earlier iterations stay written and the error propagates. */
  method WriteFiles(plan: seq<ThumbFile>, fault: Option<nat>)
    returns (written: seq<ThumbFile>, result: Result<map<string, string>, string>)
    ensures var n := if fault.Some? && fault.value < |plan| then fault.value else |plan|;
      written == plan[..n]
    ensures result.Ok? <==> fault.None? || fault.value >= |plan|
    ensures result.Err? ==> fault.Some? && fault.value < |plan| && result.error == plan[fault.value].size
    ensures result.Ok? ==> result.value == PathsOf(plan)
  {
    var thumbnails: map<string, string> := map[];
    written := [];
    var k := 0;
    while k < |plan|
      invariant 0 <= k <= |plan|
      invariant fault.Some? ==> k <= fault.value
      invariant written == plan[..k]
      invariant thumbnails == PathsOf(written)
    {
      var file := plan[k];
      if fault.Some? && fault.value == k {
        result := Err(file.size);
        return;
      }
      assert plan[..k + 1][..k] == written;
      written := plan[..k + 1];
      thumbnails := thumbnails[file.size := file.path];
      k := k + 1;
    }
    assert written == plan;
    result := Ok(thumbnails);
  }

  /** `generate_thumbnails`: one file per table entry, in table order, until the
      iteration `fault` (if any) raises while resizing, converting or saving. */
  method GenerateThumbnails(img: SourceImage, sanitized: string, stamp: string, dir: string, fault: Option<nat>)
    returns (written: seq<ThumbFile>, result: Result<map<string, string>, string>)
    ensures written == Plan(img, sanitized, stamp, dir)[..Completed(fault)]
    ensures result.Ok? <==> Completed(fault) == |ThumbSizes|
    ensures result.Err? ==> result.error == ThumbSizes[fault.value].size
    ensures result.Ok? ==> result.value.Keys == ThumbLabels
    ensures result.Ok? ==> forall i :: 0 <= i < |written| ==>
              written[i].size in result.value && result.value[written[i].size] == written[i].path
  {
    var plan := Plan(img, sanitized, stamp, dir);
    written, result := WriteFiles(plan, fault);
    if result.Ok? {
      ThumbSizesTable();
      assert plan[0].size == "small" && plan[1].size == "medium";
      TablePaths(plan);
    }
  }
}
