/** The two conversion functions that the background worker injects into the
    page (src/background.ts:87-169): fetch and decode the image, draw it onto a
    canvas, encode the canvas and save the result under a timestamped name.

    The host's part is abstract: `Host` says whether fetch and decode gave a
    bitmap, whether a 2D context was obtained, which encode requests yield a
    blob, and what the clock read. The model decides, from those answers, what
    is asked of the encoder and whether and under which name a file is saved. */
module Conversion {
  import opened Js

  const PngFormat: string := "png"
  const PngMime: string := "image/png"
  /** The fallback MIME type, spelt as the source spells it. */
  const FallbackMime: string := "iamge/jpg"

  /** A decoded image: only its size matters to the decisions modelled. */
  datatype Bitmap = Bitmap(width: nat, height: nat)

  /** A canvas size; the compressed path computes fractional sizes. */
  datatype Size = Size(width: real, height: real)

  /** What `canvas.toBlob` is asked for: the canvas size and the MIME type. */
  datatype EncodeRequest = EncodeRequest(size: Size, mime: string)

  /** The host's answers for one conversion. `bitmap` is `None` when the fetch
      or the decode failed; `encodes(r)` is false when the encoder hands back a
      null blob for request `r`; `nowMs` is the clock in milliseconds. */
  datatype Host = Host(bitmap: Option<Bitmap>, hasContext: bool, encodes: EncodeRequest -> bool, nowMs: nat)

  datatype Failure =
    | FetchFailed       // fetch or decode rejected
    | NoContext         // the 2D context check failed
    | NullContextUsed   // a null context was dereferenced (legacy code)
    | NullBlobUsed      // a null blob was dereferenced (legacy code)

  /** How one conversion ends. `handled` says whether the source's own code
      logs the failure (a `.catch` or an explicit error log) rather than
      leaving a rejection or exception unhandled. */
  datatype Outcome =
    | Failed(failure: Failure, handled: bool)
    | NoBlob(request: EncodeRequest)
    | Downloaded(request: EncodeRequest, filename: string)

  /** The MIME type handed to the encoder: PNG exactly for the format "png",
      the literal fallback for every other value. */
  function MimeType(format: string): (mime: string)
    ensures mime == PngMime <==> format == PngFormat
    ensures format != PngFormat ==> mime == FallbackMime
  {
    if format == PngFormat then PngMime else FallbackMime
  }

  /** The saved file's name: whole seconds since the epoch, a dot, and the
      format string verbatim. */
  function Filename(nowMs: nat, format: string): (name: string)
    ensures |name| > |format| + 1
    ensures name[|name| - |format|..] == format && name[|name| - |format| - 1] == '.'
    ensures AllDigits(name[..|name| - |format| - 1])
  {
    var digits := NumberToString(nowMs / 1000);
    assert (digits + "." + format)[..|digits|] == digits;
    digits + "." + format
  }

  /** The number of decimal digits at the start of `s`. */
  function LeadingDigits(s: string): (k: nat)
    ensures k <= |s|
    ensures forall i :: 0 <= i < k ==> IsDigit(s[i])
    ensures k < |s| ==> !IsDigit(s[k])
  {
    if s == [] || !IsDigit(s[0]) then 0 else 1 + LeadingDigits(s[1..])
  }

  /** Reads a saved file's name back as (seconds, extension). */
  function SplitFilename(name: string): Option<(nat, string)> {
    var k := LeadingDigits(name);
    if 0 < k < |name| && name[k] == '.' then
      Some((ParseDigits(name[..k]), name[k + 1..]))
    else
      None
  }

  lemma {:induction false} LeadingDigitsOfNumber(digits: string, rest: string)
    requires AllDigits(digits)
    requires rest != [] && !IsDigit(rest[0])
    ensures LeadingDigits(digits + rest) == |digits|
  {
    if digits != [] {
      assert (digits + rest)[1..] == digits[1..] + rest;
      LeadingDigitsOfNumber(digits[1..], rest);
    }
  }

  /** The name is exactly the seconds and the format: splitting it at the end
      of the leading digits gives back `nowMs / 1000` and the format, whatever
      the format string is. */
  lemma FilenameRoundTrip(nowMs: nat, format: string)
    ensures SplitFilename(Filename(nowMs, format)) == Some((nowMs / 1000, format))
  {
    var digits := NumberToString(nowMs / 1000);
    var name := Filename(nowMs, format);
    assert name == digits + ("." + format);
    LeadingDigitsOfNumber(digits, "." + format);
    assert name[..|digits|] == digits;
    assert name[|digits| + 1..] == format;
    ParseNumberToString(nowMs / 1000);
  }

  /** The compressed canvas size: each side times ratio / 100, computed
      exactly (no rounding). */
  function ScaledSize(b: Bitmap, ratio: int): (s: Size)
    ensures ratio == 100 ==> s == Size(b.width as real, b.height as real)
    ensures ratio == 0 ==> s == Size(0.0, 0.0)
    ensures 0 <= ratio <= 100 ==>
              0.0 <= s.width <= b.width as real && 0.0 <= s.height <= b.height as real
    ensures s.width * (b.height as real) == s.height * (b.width as real)
  {
    ScaleWithin(b.width, ratio);
    ScaleWithin(b.height, ratio);
    Size(b.width as real * ratio as real / 100.0, b.height as real * ratio as real / 100.0)
  }

  lemma ScaleWithin(side: nat, ratio: int)
    ensures 0 <= ratio <= 100 ==> 0.0 <= side as real * ratio as real / 100.0 <= side as real
  {
  }

  /** `downloadImage`: draw at the bitmap's own size and save. A fetch or
      decode failure is an unhandled rejection; a missing context is logged. */
  function DownloadImage(format: string, host: Host): (o: Outcome)
    ensures host.bitmap.None? <==> o == Failed(FetchFailed, false)
    ensures host.bitmap.Some? && !host.hasContext <==> o == Failed(NoContext, true)
    ensures (o.NoBlob? || o.Downloaded?) ==>
              host.bitmap.Some? && host.hasContext &&
              o.request == EncodeRequest(Size(host.bitmap.value.width as real, host.bitmap.value.height as real), MimeType(format))
    ensures o.Downloaded? <==> (o.NoBlob? || o.Downloaded?) && host.encodes(o.request)
    ensures o.Downloaded? ==> o.filename == Filename(host.nowMs, format)
    ensures host.bitmap.Some? && host.hasContext ==> o.NoBlob? || o.Downloaded?
  {
    match host.bitmap
    case None => Failed(FetchFailed, false)
    case Some(b) =>
      if !host.hasContext then
        Failed(NoContext, true)
      else
        var request := EncodeRequest(Size(b.width as real, b.height as real), MimeType(format));
        if host.encodes(request) then Downloaded(request, Filename(host.nowMs, format)) else NoBlob(request)
  }

  /** `downloadAndCompressImage`: obtain the context first, draw at the scaled
      size and save. Every failure reaches the chain's `.catch`. */
  function DownloadAndCompressImage(format: string, ratio: int, host: Host): (o: Outcome)
    ensures host.bitmap.None? <==> o == Failed(FetchFailed, true)
    ensures host.bitmap.Some? && !host.hasContext <==> o == Failed(NoContext, true)
    ensures (o.NoBlob? || o.Downloaded?) ==>
              host.bitmap.Some? && host.hasContext &&
              o.request == EncodeRequest(ScaledSize(host.bitmap.value, ratio), MimeType(format))
    ensures o.Downloaded? <==> (o.NoBlob? || o.Downloaded?) && host.encodes(o.request)
    ensures o.Downloaded? ==> o.filename == Filename(host.nowMs, format)
    ensures host.bitmap.Some? && host.hasContext ==> o.NoBlob? || o.Downloaded?
    ensures o.Failed? ==> o.handled
  {
    match host.bitmap
    case None => Failed(FetchFailed, true)
    case Some(b) =>
      if !host.hasContext then
        Failed(NoContext, true)
      else
        var request := EncodeRequest(ScaledSize(b, ratio), MimeType(format));
        if host.encodes(request) then Downloaded(request, Filename(host.nowMs, format)) else NoBlob(request)
  }

  /** A file is saved exactly when a bitmap was decoded, a context was
      obtained and the encoder returned a blob for the request the path
      builds; on either path. A corollary of the two functions' own
      contracts, stated here in terms of the host alone. */
  lemma DownloadIffContextAndBlob(format: string, ratio: int, host: Host)
    ensures DownloadImage(format, host).Downloaded? <==>
              host.bitmap.Some? && host.hasContext &&
              host.encodes(EncodeRequest(Size(host.bitmap.value.width as real, host.bitmap.value.height as real), MimeType(format)))
    ensures DownloadAndCompressImage(format, ratio, host).Downloaded? <==>
              host.bitmap.Some? && host.hasContext &&
              host.encodes(EncodeRequest(ScaledSize(host.bitmap.value, ratio), MimeType(format)))
  {
  }

  /** Whenever both paths reach the encoder they ask for the same MIME type,
      and whenever both save a file they use the same name, for the same
      format and clock. */
  lemma PathsAgreeOnMimeAndName(format: string, ratio: int, host: Host)
    ensures var plain, compressed := DownloadImage(format, host), DownloadAndCompressImage(format, ratio, host);
            (plain.NoBlob? || plain.Downloaded?) && (compressed.NoBlob? || compressed.Downloaded?) ==>
              plain.request.mime == compressed.request.mime == MimeType(format)
    ensures var plain, compressed := DownloadImage(format, host), DownloadAndCompressImage(format, ratio, host);
            plain.Downloaded? && compressed.Downloaded? ==> plain.filename == compressed.filename
  {
  }

  /** A ratio of 0 never leaves a failure unhandled, whatever the host does
      (a corollary of the path's contract, which holds for every ratio):
      with a bitmap and a context the encoder is asked for a 0 x 0 canvas, and
      an encoder that refuses it ends the request without a download. */
  lemma CompressedPathFailsGracefully(format: string, host: Host)
    ensures var o := DownloadAndCompressImage(format, 0, host);
            !(o.Failed? && !o.handled)
    ensures var o := DownloadAndCompressImage(format, 0, host);
            host.bitmap.Some? && host.hasContext ==> o.request.size == Size(0.0, 0.0)
    ensures host.bitmap.Some? && host.hasContext && !host.encodes(EncodeRequest(Size(0.0, 0.0), MimeType(format))) ==>
              DownloadAndCompressImage(format, 0, host) == NoBlob(EncodeRequest(Size(0.0, 0.0), MimeType(format)))
  {
  }
}
