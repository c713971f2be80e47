/**
 * The batch conversion endpoint (convert_images, POST /api/v1/images/convert):
 * validate the request, then convert every upload in turn and collect one
 * archive entry per upload that converts, skipping those that raise.
 *
 * The ZIP container is not modelled: the archive is its sequence of
 * (name, bytes) entries, in the order they are written.
 */
module BatchConvert {
  import opened Wrappers
  import opened Text
  import opened Http
  import opened Paths
  import opened ImageTools

  const MaxFiles: nat := 50
  const MaxTotalSize: nat := 100 * 1024 * 1024
  const AllowedFormats: set<string> := {"jpeg", "png", "webp", "tiff", "bmp"}

  /** An uploaded file: its client-side name, the size the request declares (possibly absent), and its bytes. */
  datatype Upload = Upload(filename: string, size: Option<nat>, content: Bytes)

  datatype Entry = Entry(name: string, data: Bytes)

  /** The streamed response: attachment name, media type and the archive's entries. */
  datatype ZipDownload = ZipDownload(filename: string, mediaType: string, entries: seq<Entry>)

  /** f.size or 0 */
  function DeclaredSize(u: Upload): nat {
    match u.size
    case Some(n) => n
    case None => 0
  }

  /** sum(f.size or 0 for f in files) */
  function TotalSize(files: seq<Upload>): (total: nat)
    ensures forall i :: 0 <= i < |files| ==> DeclaredSize(files[i]) <= total
    ensures (forall i :: 0 <= i < |files| ==> DeclaredSize(files[i]) == 0) ==> total == 0
    decreases |files|
  {
    if files == [] then 0
    else TotalSize(files[..|files| - 1]) + DeclaredSize(files[|files| - 1])
  }

  /**
   * The checks made before any upload is read: the normalised format against
   * the allow-list (400), then the number of files (413), then the total
   * declared size (413). On success, the normalised format.
   */
  function Validate(target: string, files: seq<Upload>): (r: Result<string, Reason>)
    ensures r.Success? <==>
      NormalizeFormat(target) in AllowedFormats && |files| <= MaxFiles && TotalSize(files) <= MaxTotalSize
    ensures r.Success? ==> r.value == NormalizeFormat(target)
    ensures NormalizeFormat(target) !in AllowedFormats ==>
      r == Failure(UnsupportedFormat(NormalizeFormat(target)))
    ensures NormalizeFormat(target) in AllowedFormats && |files| > MaxFiles ==>
      r == Failure(TooManyFiles)
    ensures NormalizeFormat(target) in AllowedFormats && |files| <= MaxFiles && TotalSize(files) > MaxTotalSize ==>
      r == Failure(PayloadTooLarge)
    ensures r.Failure? ==> r.error.Status() in {400, 413}
  {
    var fmt := NormalizeFormat(target);
    if fmt !in AllowedFormats then Failure(UnsupportedFormat(fmt))
    else if |files| > MaxFiles then Failure(TooManyFiles)
    else if TotalSize(files) > MaxTotalSize then Failure(PayloadTooLarge)
    else Success(fmt)
  }

  /** f"{Path(upload.filename).stem}.{ext}" */
  function ArchiveName(filename: string, ext: string): (name: string)
    ensures EndsWith(name, "." + ext)
    ensures NoSlash(ext) ==> NoSlash(name)
  {
    Stem(filename) + "." + ext
  }

  /**
   * The entry one upload contributes: none when convert_image raises for it
   * (its bytes do not decode, or the encoder refuses), otherwise the encoded
   * bytes under the upload's stem with the plan's extension.
   */
  function EntryFor<Img>(
    u: Upload, fmt: string, quality: int,
    decode: Bytes -> Option<Img>, encode: (Img, string, Option<int>) -> Option<Bytes>): (r: Option<Entry>)
    ensures decode(u.content).None? ==> r.None?
    ensures decode(u.content).Some? ==>
      var p := Plan(fmt, quality);
      var out := encode(decode(u.content).value, p.saveFmt, p.quality);
      && (out.None? ==> r.None?)
      && (out.Some? ==> r == Some(Entry(ArchiveName(u.filename, p.ext), out.value)))
  {
    match ConvertImage(u.content, fmt, quality, decode, encode)
    case Success((ext, data)) => Some(Entry(ArchiveName(u.filename, ext), data))
    case Failure(_) => None
  }

  /** EntryFor with the request's format, quality and codec fixed. */
  function EntryOf<Img>(
    fmt: string, quality: int,
    decode: Bytes -> Option<Img>, encode: (Img, string, Option<int>) -> Option<Bytes>): Upload -> Option<Entry>
  {
    u => EntryFor(u, fmt, quality, decode, encode)
  }

  /**
   * The best-effort fold of the conversion loop: visit the uploads in order,
   * keep the entry of each that converts and drop each that does not.
   */
  function Collect(files: seq<Upload>, entryOf: Upload -> Option<Entry>): seq<Entry>
    decreases |files|
  {
    if files == [] then []
    else
      var before := Collect(files[..|files| - 1], entryOf);
      match entryOf(files[|files| - 1])
      case Some(e) => before + [e]
      case None => before
  }

  /**
   * convert_images: a rejected request yields its error and converts nothing;
   * an accepted one yields the archive of every upload that converts, named
   * after the normalised format.
   */
  method ConvertImages<Img>(
    files: seq<Upload>, target: string, quality: int,
    decode: Bytes -> Option<Img>, encode: (Img, string, Option<int>) -> Option<Bytes>)
    returns (r: Result<ZipDownload, Reason>)
    ensures Validate(target, files).Failure? ==> r == Failure(Validate(target, files).error)
    ensures Validate(target, files).Success? ==>
      var fmt := NormalizeFormat(target);
      r == Success(ZipDownload("converted_images_" + fmt + ".zip", "application/zip",
                               Collect(files, EntryOf(fmt, quality, decode, encode))))
  {
    var checked := Validate(target, files);
    if checked.Failure? {
      return Failure(checked.error);
    }
    var fmt := checked.value;
    var archive: seq<Entry> := [];
    for i := 0 to |files|
      invariant archive == Collect(files[..i], EntryOf(fmt, quality, decode, encode))
    {
      assert files[..i + 1][..i] == files[..i];
      var upload := files[i];
      var raw := upload.content;
      var converted := ConvertImage(raw, fmt, quality, decode, encode);
      if converted.Failure? {
        continue;
      }
      var (ext, data) := converted.value;
      archive := archive + [Entry(ArchiveName(upload.filename, ext), data)];
    }
    assert files[..|files|] == files;
    r := Success(ZipDownload("converted_images_" + fmt + ".zip", "application/zip", archive));
  }

  // ---------------------------------------------------------------------------
  // Properties of validation
  // ---------------------------------------------------------------------------

  lemma {:induction false} TotalSizeOfSizes(a: seq<Upload>, b: seq<Upload>)
    requires |a| == |b|
    requires forall i :: 0 <= i < |a| ==> DeclaredSize(a[i]) == DeclaredSize(b[i])
    ensures TotalSize(a) == TotalSize(b)
    decreases |a|
  {
    if a != [] {
      TotalSizeOfSizes(a[..|a| - 1], b[..|b| - 1]);
    }
  }

  /**
   * Validation reads no file body: two requests whose uploads declare the same
   * sizes are accepted or rejected alike, whatever the names and contents.
   */
  lemma ValidationReadsNoContent(target: string, a: seq<Upload>, b: seq<Upload>)
    requires |a| == |b|
    requires forall i :: 0 <= i < |a| ==> DeclaredSize(a[i]) == DeclaredSize(b[i])
    ensures Validate(target, a) == Validate(target, b)
  {
    TotalSizeOfSizes(a, b);
  }

  /** Exactly 50 files pass the count check; 51 are refused with 413. */
  lemma FileCountBoundary(target: string, files: seq<Upload>)
    requires NormalizeFormat(target) in AllowedFormats && TotalSize(files) <= MaxTotalSize
    ensures |files| == 50 ==> Validate(target, files).Success?
    ensures |files| == 51 ==> Validate(target, files) == Failure(TooManyFiles) && Validate(target, files).error.Status() == 413
  {
  }

  /** A total of exactly 100 MiB (104857600 bytes) passes the size check; one byte more is refused with 413. */
  lemma TotalSizeBoundary(target: string, files: seq<Upload>)
    requires NormalizeFormat(target) in AllowedFormats && |files| <= MaxFiles
    ensures TotalSize(files) == 104857600 ==> Validate(target, files).Success?
    ensures TotalSize(files) == 104857601 ==>
      Validate(target, files) == Failure(PayloadTooLarge) && Validate(target, files).error.Status() == 413
  {
  }

  /** An upload that declares no size counts as 0 bytes: adding it changes no total. */
  lemma UndeclaredSizeCountsZero(files: seq<Upload>, u: Upload)
    requires u.size.None?
    ensures TotalSize(files + [u]) == TotalSize(files)
  {
    assert (files + [u])[..|files|] == files;
  }

  // ---------------------------------------------------------------------------
  // Properties of the fold
  // ---------------------------------------------------------------------------

  /** Collecting a + b gives a's entries, then b's: order follows the uploads. */
  lemma {:induction false} CollectAppend(a: seq<Upload>, b: seq<Upload>, entryOf: Upload -> Option<Entry>)
    ensures Collect(a + b, entryOf) == Collect(a, entryOf) + Collect(b, entryOf)
    decreases |b|
  {
    if b == [] {
      assert a + b == a;
    } else {
      var b' := b[..|b| - 1];
      assert (a + b)[..|a + b| - 1] == a + b';
      assert (a + b)[|a + b| - 1] == b[|b| - 1];
      CollectAppend(a, b', entryOf);
    }
  }

  /** The positions of the uploads that convert, in increasing order. */
  function Converted(files: seq<Upload>, entryOf: Upload -> Option<Entry>): (ix: seq<nat>)
    ensures forall k :: 0 <= k < |ix| ==> ix[k] < |files|
    decreases |files|
  {
    if files == [] then []
    else
      var n := |files| - 1;
      var before := Converted(files[..n], entryOf);
      if entryOf(files[n]).Some? then before + [n] else before
  }

  predicate StrictlyIncreasing(ix: seq<nat>) {
    forall k, l :: 0 <= k < l < |ix| ==> ix[k] < ix[l]
  }

  /**
   * The positions of the converted uploads increase strictly, and every upload
   * whose position is not among them fails to convert.
   */
  lemma {:induction false} ConvertedPositions(files: seq<Upload>, entryOf: Upload -> Option<Entry>)
    ensures
      var ix := Converted(files, entryOf);
      && StrictlyIncreasing(ix)
      && (forall i :: 0 <= i < |files| && i !in ix ==> entryOf(files[i]).None?)
    decreases |files|
  {
    if files != [] {
      var n := |files| - 1;
      var init := files[..n];
      ConvertedPositions(init, entryOf);
      var ix0 := Converted(init, entryOf);
      var ix := Converted(files, entryOf);
      assert StrictlyIncreasing(ix0);
      if entryOf(files[n]).Some? {
        assert ix == ix0 + [n];
        forall k, l | 0 <= k < l < |ix|
          ensures ix[k] < ix[l]
        {
          assert ix[k] == ix0[k] < |init|;
          if l < |ix0| {
            assert ix[l] == ix0[l];
            assert ix0[k] < ix0[l];
          } else {
            assert ix[l] == n;
          }
        }
        forall i | 0 <= i < |files| && i !in ix
          ensures entryOf(files[i]).None?
        {
          assert i != n;
          assert files[i] == init[i];
          assert i !in ix0;
        }
      } else {
        assert ix == ix0;
        forall i | 0 <= i < |files| && i !in ix
          ensures entryOf(files[i]).None?
        {
          if i < n {
            assert files[i] == init[i];
          }
        }
      }
    }
  }

  /**
   * The archive holds exactly the entries of the converted uploads, in upload
   * order: entry k is the entry of upload Converted[k].
   */
  lemma {:induction false} EntriesAreConvertedUploads(files: seq<Upload>, entryOf: Upload -> Option<Entry>)
    ensures
      var entries := Collect(files, entryOf);
      var ix := Converted(files, entryOf);
      && |entries| == |ix|
      && (forall k :: 0 <= k < |ix| ==> entryOf(files[ix[k]]) == Some(entries[k]))
    decreases |files|
  {
    if files != [] {
      var n := |files| - 1;
      var init := files[..n];
      EntriesAreConvertedUploads(init, entryOf);
      var ix0 := Converted(init, entryOf);
      assert forall k :: 0 <= k < |ix0| ==> files[ix0[k]] == init[ix0[k]];
    }
  }

  /** At most one entry per upload; exactly one each when every upload converts. */
  lemma {:induction false} EntryCountBound(files: seq<Upload>, entryOf: Upload -> Option<Entry>)
    ensures |Collect(files, entryOf)| <= |files|
    ensures (forall i :: 0 <= i < |files| ==> entryOf(files[i]).Some?) ==> |Collect(files, entryOf)| == |files|
    decreases |files|
  {
    if files != [] {
      EntryCountBound(files[..|files| - 1], entryOf);
    }
  }

  /** When no upload converts, the fold collects nothing. */
  lemma {:induction false} NothingConvertedIsEmpty(files: seq<Upload>, entryOf: Upload -> Option<Entry>)
    requires forall i :: 0 <= i < |files| ==> entryOf(files[i]).None?
    ensures Collect(files, entryOf) == []
    decreases |files|
  {
    if files != [] {
      NothingConvertedIsEmpty(files[..|files| - 1], entryOf);
    }
  }

  // ---------------------------------------------------------------------------
  // Properties of the batch endpoint
  // ---------------------------------------------------------------------------

  /**
   * An upload whose bytes do not decode adds no entry; when no upload decodes
   * the archive is empty, and ConvertImages still answers with success.
   */
  lemma UndecodableUploadsGiveEmptyArchive<Img>(
    files: seq<Upload>, fmt: string, quality: int,
    decode: Bytes -> Option<Img>, encode: (Img, string, Option<int>) -> Option<Bytes>)
    requires forall i :: 0 <= i < |files| ==> decode(files[i].content).None?
    ensures Collect(files, EntryOf(fmt, quality, decode, encode)) == []
  {
    NothingConvertedIsEmpty(files, EntryOf(fmt, quality, decode, encode));
  }

  /** Every allowed format is its own normal form and its own file extension. */
  lemma AllowedFormatIsExtension(fmt: string, quality: int)
    requires fmt in AllowedFormats
    ensures NormalizeFormat(fmt) == fmt
    ensures Plan(fmt, quality).ext == fmt
  {
    assert NormalizeFormat(fmt) == fmt by {
      forall i | 0 <= i < |fmt|
        ensures IsLowerLetter(fmt[i])
      {
      }
      LetterWordIsNormal(fmt);
    }
    assert fmt in JpegAliases ==> fmt == "jpeg";
  }

  /**
   * In an accepted request, entry k of the archive comes from the k-th
   * converted upload, is named after that upload's stem and the normalised
   * format, and holds the encoder's output for its decoded image.
   */
  lemma EntryNames<Img>(
    files: seq<Upload>, target: string, quality: int,
    decode: Bytes -> Option<Img>, encode: (Img, string, Option<int>) -> Option<Bytes>)
    requires Validate(target, files).Success?
    ensures
      var fmt := NormalizeFormat(target);
      var entries := Collect(files, EntryOf(fmt, quality, decode, encode));
      var ix := Converted(files, EntryOf(fmt, quality, decode, encode));
      && |ix| == |entries|
      && forall k :: 0 <= k < |entries| ==>
        && ix[k] < |files|
        && entries[k].name == Stem(files[ix[k]].filename) + "." + fmt
        && decode(files[ix[k]].content).Some?
        && encode(decode(files[ix[k]].content).value, Plan(fmt, quality).saveFmt, Plan(fmt, quality).quality)
           == Some(entries[k].data)
  {
    var fmt := NormalizeFormat(target);
    var entryOf := EntryOf(fmt, quality, decode, encode);
    var entries := Collect(files, entryOf);
    var ix := Converted(files, entryOf);
    EntriesAreConvertedUploads(files, entryOf);
    AllowedFormatIsExtension(fmt, quality);
    forall k | 0 <= k < |entries|
      ensures entries[k].name == Stem(files[ix[k]].filename) + "." + fmt
      ensures decode(files[ix[k]].content).Some?
      ensures encode(decode(files[ix[k]].content).value, Plan(fmt, quality).saveFmt, Plan(fmt, quality).quality)
              == Some(entries[k].data)
    {
      var u := files[ix[k]];
      assert EntryFor(u, fmt, quality, decode, encode) == Some(entries[k]);
    }
  }
}
