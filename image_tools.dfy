/**
 * convert_image from app/utils/image_tools.py: normalise the target format,
 * decode the input, choose the codec name, the file extension and (for JPEG
 * only) the clamped quality, and encode.
 *
 * The image library is not part of this model: decoding and encoding are
 * parameters, each of which may fail (an exception in the source).
 */
module ImageTools {
  import opened Wrappers
  import opened Text
  import opened Http

  const JpegAliases: set<string> := {"jpeg", "jpg"}

  /** What is handed to the encoder: codec name, keyword options, and the extension returned to the caller. */
  datatype SavePlan = SavePlan(saveFmt: string, quality: Option<int>, ext: string)

  /** Why convert_image raised. */
  datatype ConvertError = DecodeFailed | EncodeFailed

  /** target_fmt.lower().strip() */
  function NormalizeFormat(target: string): (f: string)
    ensures forall i :: 0 <= i < |f| ==> !IsUpperLetter(f[i])
    ensures f != [] ==> !IsSpace(f[0]) && !IsSpace(f[|f| - 1])
  {
    LowerStripShape(target);
    var f := LowerStrip(target);
    f
  }

  /** max(1, min(quality, 100)) */
  function ClampQuality(quality: int): (q: int)
    ensures 1 <= q <= 100
    ensures 1 <= quality <= 100 ==> q == quality
    ensures quality < 1 ==> q == 1
    ensures quality > 100 ==> q == 100
  {
    if quality < 1 then 1 else if quality > 100 then 100 else quality
  }

  lemma UpperJpeg()
    ensures Upper("jpeg") == "JPEG"
  {
    var u := Upper("jpeg");
    assert u[0] == 'J' && u[1] == 'P' && u[2] == 'E' && u[3] == 'G';
  }

  /**
   * The branch of convert_image that picks the codec: "jpeg" and "jpg" become
   * the JPEG codec with extension "jpeg" and a clamped quality; any other name
   * is passed through, upper-cased for the codec and unchanged as extension.
   */
  function Plan(target: string, quality: int): (p: SavePlan)
    ensures p.saveFmt == Upper(p.ext)
    ensures p.quality.Some? <==> NormalizeFormat(target) in JpegAliases
    ensures p.quality.Some? ==> p.ext == "jpeg" && p.quality.value == ClampQuality(quality)
    ensures p.quality.None? ==> p.ext == NormalizeFormat(target)
  {
    var fmt := NormalizeFormat(target);
    if fmt in JpegAliases then
      UpperJpeg();
      SavePlan("JPEG", Some(ClampQuality(quality)), "jpeg")
    else
      SavePlan(Upper(fmt), None, fmt)
  }

  /**
   * convert_image(data, target_fmt, quality): Success((ext, bytes)) when the
   * input decodes and the encoder accepts the chosen codec, otherwise the
   * exception it raises.
   */
  function ConvertImage<Img>(
    data: Bytes, target: string, quality: int,
    decode: Bytes -> Option<Img>,
    encode: (Img, string, Option<int>) -> Option<Bytes>): (r: Result<(string, Bytes), ConvertError>)
    ensures decode(data).None? ==> r == Failure(DecodeFailed)
    ensures r.Success? ==> decode(data).Some?
    ensures r.Success? ==> r.value.0 == Plan(target, quality).ext
    ensures r.Success? ==>
      var p := Plan(target, quality);
      encode(decode(data).value, p.saveFmt, p.quality) == Some(r.value.1)
    ensures decode(data).Some? && r.Failure? ==>
      var p := Plan(target, quality);
      r.error == EncodeFailed && encode(decode(data).value, p.saveFmt, p.quality).None?
  {
    match decode(data)
    case None => Failure(DecodeFailed)
    case Some(img) =>
      var p := Plan(target, quality);
      match encode(img, p.saveFmt, p.quality)
      case None => Failure(EncodeFailed)
      case Some(out) => Success((p.ext, out))
  }

  // ---------------------------------------------------------------------------
  // Properties of the format selection
  // ---------------------------------------------------------------------------

  /** The quality handed to the encoder is always within [1, 100], and is the caller's when that already is. */
  lemma QualityInRange(target: string, quality: int)
    ensures Plan(target, quality).quality.Some? ==> 1 <= Plan(target, quality).quality.value <= 100
    ensures 1 <= quality <= 100 && NormalizeFormat(target) in JpegAliases ==>
      Plan(target, quality).quality == Some(quality)
  {
  }

  /**
   * "jpeg" and "jpg", in any letter case and with any surrounding white space,
   * select the JPEG codec and the extension "jpeg".
   */
  lemma JpegAliasesAnySpelling(pre: string, word: string, post: string, quality: int)
    requires AllSpace(pre) && AllSpace(post)
    requires Lower(word) in JpegAliases
    ensures Plan(pre + word + post, quality) == SavePlan("JPEG", Some(ClampQuality(quality)), "jpeg")
  {
    assert word != [];
    assert !IsSpace(word[0]) && !IsSpace(word[|word| - 1]) by {
      assert !IsSpace(Lower(word)[0]) && !IsSpace(Lower(word)[|word| - 1]);
    }
    LowerStripPadded(pre, word, post);
  }

  /**
   * Any other format passes through: the extension is the normalised name, the
   * codec its upper-case form, no quality option is given, and so the choice
   * does not depend on the quality.
   */
  lemma OtherFormatsPassThrough(target: string, q1: int, q2: int)
    requires NormalizeFormat(target) !in JpegAliases
    ensures Plan(target, q1) == Plan(target, q2)
    ensures Plan(target, q1) == SavePlan(Upper(NormalizeFormat(target)), None, NormalizeFormat(target))
  {
  }

  /** The extension is never given a dot: it has one only if the normalised target name already had it. */
  lemma ExtensionAddsNoDot(target: string, quality: int)
    ensures forall j :: 0 <= j < |Plan(target, quality).ext| && Plan(target, quality).ext[j] == '.' ==>
      NormalizeFormat(target) !in JpegAliases && NormalizeFormat(target)[j] == '.'
  {
    var jpeg := "jpeg";
    assert forall j :: 0 <= j < |jpeg| ==> jpeg[j] != '.';
  }

  /** Normalising a target name first changes nothing: normalisation is idempotent. */
  lemma PlanOfNormalized(target: string, quality: int)
    ensures NormalizeFormat(NormalizeFormat(target)) == NormalizeFormat(target)
    ensures Plan(NormalizeFormat(target), quality) == Plan(target, quality)
  {
    LowerStripIdempotent(target);
  }

  /** A name that is already lower case and unpadded is its own normal form. */
  lemma NormalizedIsFixed(f: string)
    requires forall i :: 0 <= i < |f| ==> !IsUpperLetter(f[i])
    requires f != [] ==> !IsSpace(f[0]) && !IsSpace(f[|f| - 1])
    ensures NormalizeFormat(f) == f
  {
    LowerOfLower(f);
    assert [] + f + [] == f;
    StripPadded([], f, []);
  }

  /** A word of lower-case letters is its own normal form. */
  lemma LetterWordIsNormal(f: string)
    requires forall i :: 0 <= i < |f| ==> IsLowerLetter(f[i])
    ensures NormalizeFormat(f) == f
  {
    NormalizedIsFixed(f);
  }
}
