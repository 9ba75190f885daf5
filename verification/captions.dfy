/** The caption chain (`generate_local_caption` and `clean_caption`): the
    model's caption cleaned up, or a caption built from the image's metadata,
    or a fixed last resort. The captioning model itself is not modelled: its
    raw output, or its failure, is an input. */
module Captions {
  import opened Basics
  import opened Text
  import opened Thumbnails

  const PictureOf: string := "a picture of "
  const ImageOf: string := "an image of "

  /** The clean-up of a model caption: at most one verbose prefix is cut (the
      first of the two that matches, ignoring case), then surrounding whitespace. */
  function CleanCaption(raw: string): (c: string)
    ensures IsTrimmed(c)
    ensures |c| <= |raw|
  {
    var lowered := Lower(raw);
    var rest :=
      if StartsWith(lowered, PictureOf) then raw[13..]
      else if StartsWith(lowered, ImageOf) then raw[12..]
      else raw;
    Strip(rest)
  }

  /** "a picture of " in any letter case is cut, and nothing after it is examined. */
  lemma CleanCaptionDropsPictureOf(p: string, x: string)
    requires Lower(p) == PictureOf
    ensures CleanCaption(p + x) == Strip(x)
  {
    LowerAppend(p, x);
    assert Lower(p + x)[..13] == PictureOf;
    assert (p + x)[13..] == x;
  }

  /** "an image of " in any letter case is cut when "a picture of " does not match. */
  lemma CleanCaptionDropsImageOf(p: string, x: string)
    requires Lower(p) == ImageOf
    ensures CleanCaption(p + x) == Strip(x)
  {
    LowerAppend(p, x);
    assert Lower(p + x)[..12] == ImageOf;
    assert Lower(p + x)[1] == 'n';
    assert !StartsWith(Lower(p + x), PictureOf);
    assert (p + x)[12..] == x;
  }

  /** Only one prefix is removed: a second verbose prefix survives the clean-up. */
  lemma CleanCaptionOnePrefixOnly(x: string)
    ensures CleanCaption(PictureOf + ImageOf + x) == Strip(ImageOf + x)
  {
    var y := ImageOf + x;
    assert PictureOf + ImageOf + x == PictureOf + y;
    assert Lower(PictureOf) == PictureOf by {
      LowerOfLowered(PictureOf);
    }
    CleanCaptionDropsPictureOf(PictureOf, y);
  }

  /** A caption without either prefix is only stripped of surrounding whitespace. */
  lemma CleanCaptionWithoutPrefix(raw: string)
    requires !StartsWith(Lower(raw), PictureOf) && !StartsWith(Lower(raw), ImageOf)
    ensures CleanCaption(raw) == Strip(raw)
  {
  }

  /** The clean-up can leave nothing: a model that only says "A picture of" yields "". */
  lemma CleanCaptionCanBeEmpty()
    ensures CleanCaption("A picture of   ") == ""
  {
    var raw := "A picture of   ";
    assert Lower(raw)[..13] == PictureOf;
    assert raw[13..] == "  ";
    StripAllSpace("  ");
  }

  /** A caption that is already trimmed and starts with neither prefix passes the clean-up unchanged. */
  lemma CleanCaptionKeeps(raw: string)
    requires IsTrimmed(raw)
    requires !StartsWith(Lower(raw), PictureOf) && !StartsWith(Lower(raw), ImageOf)
    ensures CleanCaption(raw) == raw
  {
    StripTrimmed(raw);
  }

  /** `img.format or 'unknown format'`. */
  function FormatText(format: Option<string>): (t: string)
    ensures t != ""
    ensures format.Some? && format.value != "" ==> t == format.value
    ensures format.None? || format.value == "" ==> t == "unknown format"
  {
    if format.Some? && format.value != "" then format.value else "unknown format"
  }

  const MetadataPrefix: string := "An image ("

  /** The metadata fallback caption, built from the reopened file:
      `An image (<width>x<height>, <format>)`. */
  function MetadataCaption(img: SourceImage): (c: string)
    ensures StartsWith(c, MetadataPrefix) && c[|c| - 1] == ')'
    ensures c[|MetadataPrefix|..|c| - 1]
         == NatToString(img.width) + "x" + NatToString(img.height) + ", " + FormatText(img.format)
  {
    var details := NatToString(img.width) + "x" + NatToString(img.height) + ", " + FormatText(img.format);
    MetadataPrefix + details + ")"
  }

  /** The last-resort caption. */
  const UploadedCaption: string := "An uploaded image"

  /** The metadata caption starts with its fixed prefix and is not changed by the
      clean-up, so skipping the clean-up for it loses nothing. */
  lemma MetadataCaptionIsClean(img: SourceImage)
    ensures StartsWith(MetadataCaption(img), MetadataPrefix)
    ensures CleanCaption(MetadataCaption(img)) == MetadataCaption(img)
  {
    var details := NatToString(img.width) + "x" + NatToString(img.height) + ", " + FormatText(img.format);
    var front := MetadataPrefix + details;
    var m := front + ")";
    assert m[1] == front[1] == 'n';
    assert m[9] == front[9] == '(';
    assert m[..10] == front[..10] == MetadataPrefix;
    var lowered := Lower(m);
    DiffersAt(lowered, PictureOf, 1);
    DiffersAt(lowered, ImageOf, 9);
    CleanCaptionKeeps(m);
  }

  /** The last-resort caption does not start with the metadata prefix and is not
      changed by the clean-up. */
  lemma UploadedCaptionIsClean()
    ensures !StartsWith(UploadedCaption, MetadataPrefix)
    ensures CleanCaption(UploadedCaption) == UploadedCaption
  {
    var u := UploadedCaption;
    DiffersAt(u, MetadataPrefix, 3);
    var lowered := Lower(u);
    DiffersAt(lowered, PictureOf, 1);
    DiffersAt(lowered, ImageOf, 3);
    CleanCaptionKeeps(u);
  }

  /** `generate_local_caption`: it never raises. `model` is the local model's raw
      caption, or `None` when loading or running it raised; `reopened` is the
      image as reopened for the metadata fallback, or `None` when that raised. */
  function LocalCaption(model: Option<string>, reopened: Option<SourceImage>): (caption: string)
    ensures model.Some? ==> caption == CleanCaption(model.value)
    ensures model.None? ==> caption != "" && CleanCaption(caption) == caption
    ensures model.None? ==> (reopened.Some? <==> StartsWith(caption, MetadataPrefix))
    ensures model.None? && reopened.Some? ==> caption == MetadataCaption(reopened.value)
    ensures model.None? && reopened.None? ==> caption == UploadedCaption
  {
    match model
    case Some(raw) => CleanCaption(raw)
    case None =>
      if reopened.Some? then
        MetadataCaptionIsClean(reopened.value);
        MetadataCaption(reopened.value)
      else
        UploadedCaptionIsClean();
        UploadedCaption
  }
}
