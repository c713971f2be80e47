/**
 * The single-image resize endpoint (resize_image, POST /api/v1/images/resize):
 * the format is read off the file name, checked against an allow-list, and
 * decides the codec, the media type and the download name.
 *
 * Decoding, resizing and encoding belong to the image library and are
 * parameters here.
 */
module Resize {
  import opened Wrappers
  import opened Text
  import opened Http
  import opened ImageTools

  const ResizeFormats: set<string> := {"jpeg", "jpg", "png", "webp"}

  /** file.filename.rsplit(".", 1)[-1].lower(): the lower-cased text after the last dot. */
  function RequestedFormat(filename: string): string {
    Lower(AfterLast(filename, '.'))
  }

  /**
   * The requested format is the lower-cased longest dot-free tail of the file
   * name: all of it when it has no dot, else what follows the last dot.
   */
  lemma RequestedFormatIsLastExtension(filename: string)
    ensures
      var fmt := RequestedFormat(filename);
      var k := |filename| - |fmt|;
      && 0 <= k
      && fmt == Lower(filename[k..])
      && (forall j :: k <= j < |filename| ==> filename[j] != '.')
      && (k > 0 ==> filename[k - 1] == '.')
  {
  }

  /** Codec name, media type and attachment name chosen for an accepted format. */
  datatype Output = Output(fmt: string, saveFmt: string, mediaType: string, downloadName: string)

  /** The response streamed back: the encoded bytes, their media type and the attachment name. */
  datatype ImageResponse = ImageResponse(body: Bytes, mediaType: string, downloadName: string)

  /**
   * The checks and choices made before the upload is read: only jpeg, jpg, png
   * and webp are accepted; jpeg and jpg are saved as JPEG and served as
   * image/jpeg, the others as their upper-case codec and image/<fmt>; the
   * download keeps the requested extension.
   */
  function ChooseOutput(filename: string): (r: Result<Output, Reason>)
    ensures r.Success? <==> RequestedFormat(filename) in ResizeFormats
    ensures r.Failure? ==> r.error == UnsupportedResizeFormat && r.error.Status() == 400
    ensures r.Success? ==> r.value.fmt == RequestedFormat(filename)
    ensures r.Success? ==> r.value.downloadName == "resized." + r.value.fmt
    ensures r.Success? && r.value.fmt in JpegAliases ==>
      r.value.saveFmt == "JPEG" && r.value.mediaType == "image/jpeg"
    ensures r.Success? && r.value.fmt !in JpegAliases ==>
      r.value.saveFmt == Upper(r.value.fmt) && r.value.mediaType == "image/" + r.value.fmt
  {
    var fmt := RequestedFormat(filename);
    if fmt !in ResizeFormats then
      Failure(UnsupportedResizeFormat)
    else
      var saveFmt := if fmt in JpegAliases then "JPEG" else Upper(fmt);
      assert fmt !in JpegAliases ==> saveFmt != "JPEG" by {
        if fmt !in JpegAliases {
          NotJpegCodec(fmt);
        }
      }
      var mediaType := if saveFmt == "JPEG" then "image/jpeg" else "image/" + fmt;
      Success(Output(fmt, saveFmt, mediaType, "resized." + fmt))
  }

  /** Only the JPEG aliases among the accepted formats upper-case to "JPEG". */
  lemma NotJpegCodec(fmt: string)
    requires fmt in ResizeFormats && fmt !in JpegAliases
    ensures Upper(fmt) != "JPEG"
  {
    assert Upper(fmt)[0] == UpperChar(fmt[0]);
  }

  /**
   * resize_image: an unsupported name is refused before the upload is read;
   * bytes the library cannot open give 400; otherwise the image is resized to
   * exactly width x height and encoded with the chosen codec. Neither the
   * resize nor the encoder runs inside a try, so a failure of either ends as
   * an uncaught error (500).
   */
  function ResizeImage<Img>(
    filename: string, data: Bytes, width: int, height: int,
    decode: Bytes -> Option<Img>,
    resize: (Img, int, int) -> Option<Img>,
    encode: (Img, string) -> Option<Bytes>): (r: Result<ImageResponse, Reason>)
    requires width > 0 && height > 0
    ensures ChooseOutput(filename).Failure? ==> r == Failure(UnsupportedResizeFormat)
    ensures ChooseOutput(filename).Success? && decode(data).None? ==> r == Failure(ImageUnreadable)
    ensures ChooseOutput(filename).Success? && decode(data).Some? ==>
      var out := ChooseOutput(filename).value;
      var resized := resize(decode(data).value, width, height);
      && (resized.None? ==> r == Failure(Unhandled))
      && (resized.Some? && encode(resized.value, out.saveFmt).None? ==> r == Failure(Unhandled))
      && (resized.Some? && encode(resized.value, out.saveFmt).Some? ==>
            r == Success(ImageResponse(encode(resized.value, out.saveFmt).value, out.mediaType, out.downloadName)))
  {
    match ChooseOutput(filename)
    case Failure(e) => Failure(e)
    case Success(out) =>
      match decode(data)
      case None => Failure(ImageUnreadable)
      case Some(img) =>
        match resize(img, width, height)
        case None => Failure(Unhandled)
        case Some(resized) =>
          match encode(resized, out.saveFmt)
          case None => Failure(Unhandled)
          case Some(body) => Success(ImageResponse(body, out.mediaType, out.downloadName))
  }

  /**
   * The status of every outcome: a refused name and unreadable bytes are the
   * caller's fault (400), a library failure after decoding is a 500, and the
   * request succeeds exactly when the name is accepted and decoding, resizing
   * and encoding all succeed.
   */
  lemma ResizeStatuses<Img>(
    filename: string, data: Bytes, width: int, height: int,
    decode: Bytes -> Option<Img>, resize: (Img, int, int) -> Option<Img>, encode: (Img, string) -> Option<Bytes>)
    requires width > 0 && height > 0
    ensures
      var r := ResizeImage(filename, data, width, height, decode, resize, encode);
      && (r.Success? <==>
            && ChooseOutput(filename).Success? && decode(data).Some?
            && resize(decode(data).value, width, height).Some?
            && encode(resize(decode(data).value, width, height).value, ChooseOutput(filename).value.saveFmt).Some?)
      && (r.Failure? ==> r.error.Status() in {400, 500})
      && (r.Failure? && r.error.Status() == 400 <==>
            ChooseOutput(filename).Failure? || decode(data).None?)
  {
    var r := ResizeImage(filename, data, width, height, decode, resize, encode);
    if ChooseOutput(filename).Failure? {
      assert r == Failure(UnsupportedResizeFormat);
    } else if decode(data).None? {
      assert r == Failure(ImageUnreadable);
    } else {
      var out := ChooseOutput(filename).value;
      var resized := resize(decode(data).value, width, height);
      if resized.None? || encode(resized.value, out.saveFmt).None? {
        assert r == Failure(Unhandled);
      } else {
        assert r.Success?;
      }
    }
  }

  /**
   * The resize endpoint and convert_image pick the same codec for every format
   * resize accepts, and resize's media type names convert_image's extension.
   */
  lemma SameCodecAsConvert(filename: string, quality: int)
    requires ChooseOutput(filename).Success?
    ensures
      var out := ChooseOutput(filename).value;
      && out.saveFmt == Plan(out.fmt, quality).saveFmt
      && out.mediaType == "image/" + Plan(out.fmt, quality).ext
  {
    var out := ChooseOutput(filename).value;
    AcceptedFormatIsNormal(out.fmt);
    var p := Plan(out.fmt, quality);
    if out.fmt in JpegAliases {
      assert p.ext == "jpeg" && out.mediaType == "image/jpeg";
      JpegMediaType();
    } else {
      assert p.ext == out.fmt;
    }
  }

  lemma JpegMediaType()
    ensures "image/" + "jpeg" == "image/jpeg"
  {
    var m := "image/" + "jpeg";
    assert |m| == 10 && m[6] == 'j' && m[7] == 'p' && m[8] == 'e' && m[9] == 'g';
  }

  lemma AcceptedFormatIsNormal(fmt: string)
    requires fmt in ResizeFormats
    ensures NormalizeFormat(fmt) == fmt
  {
    assert forall i :: 0 <= i < |fmt| ==> IsLowerLetter(fmt[i]);
    LetterWordIsNormal(fmt);
  }

  /** A refused file name is refused whatever the upload holds and whatever the library would do with it. */
  lemma RefusalReadsNothing<Img>(
    filename: string, d1: Bytes, d2: Bytes, width: int, height: int,
    decode: Bytes -> Option<Img>, resize: (Img, int, int) -> Option<Img>, encode: (Img, string) -> Option<Bytes>)
    requires width > 0 && height > 0
    requires RequestedFormat(filename) !in ResizeFormats
    ensures ResizeImage(filename, d1, width, height, decode, resize, encode) ==
            ResizeImage(filename, d2, width, height, decode, resize, encode) ==
            Failure(UnsupportedResizeFormat)
  {
  }
}
