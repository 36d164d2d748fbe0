/** The older background script, background.js: a PNG-only menu whose click
    listener compares the first entry's id but assigns (rather than compares)
    in its second test (line 30), and a compressed download that fits the image
    into 300 x 300 pixels (lines 71-87). */
module LegacyBackground {
  import opened Js
  import opened Conversion
  import ContextMenu

  const DownloadAsPngId: string := "downloadAsPng"
  const CompressedPngId: string := "downloadAsCompressedPng"
  const MaxWidth: nat := 300
  const MaxHeight: nat := 300
  const PlainFilename: string := "image.png"
  const CompressedFilename: string := "compressed_image.png"

  /** The three entries the legacy script registers on install. */
  function LegacyMenuEntries(): (m: seq<ContextMenu.MenuEntry>)
    ensures |m| == 3 && ContextMenu.WellFormedMenu(m, ContextMenu.ParentId)
    ensures forall e :: e in m && e.parentId.Some? ==> e.id == DownloadAsPngId || e.id == CompressedPngId
  {
    [ ContextMenu.MenuEntry(ContextMenu.ParentId, None, "menuTitle", [ContextMenu.ImageContext]),
      ContextMenu.MenuEntry(DownloadAsPngId, Some(ContextMenu.ParentId), "downloadPng", [ContextMenu.ImageContext]),
      ContextMenu.MenuEntry(CompressedPngId, Some(ContextMenu.ParentId), "downloadCompressedPng", [ContextMenu.ImageContext]) ]
  }

  datatype LegacyRequest = DownloadImageAsPng(url: string) | DownloadAndCompressImageAsPng(url: string)

  /** What a click leads to: the request, if any, and the click record as the
      listener leaves it. */
  datatype LegacyClick = LegacyClick(request: Option<LegacyRequest>, record: ContextMenu.ClickInfo)

  /** The listener as written. The first test compares; when it fails, the
      second test assigns `"downloadAsCompressedPng" && srcUrl`, which is the
      URL itself (or its falsy stand-in), to the record's id and then tests it. */
  function LegacyDispatch(info: ContextMenu.ClickInfo): (c: LegacyClick)
    ensures info.menuItemId == Str(DownloadAsPngId) && Truthy(OfString(info.srcUrl)) ==>
              c == LegacyClick(Some(DownloadImageAsPng(info.srcUrl.value)), info)
    ensures info.menuItemId != Str(DownloadAsPngId) && Truthy(OfString(info.srcUrl)) ==>
              c.request == Some(DownloadAndCompressImageAsPng(info.srcUrl.value))
    ensures !Truthy(OfString(info.srcUrl)) ==> c.request == None
    ensures !(info.menuItemId == Str(DownloadAsPngId) && Truthy(OfString(info.srcUrl))) ==>
              c.record == info.(menuItemId := OfString(info.srcUrl))
  {
    if info.menuItemId == Str(DownloadAsPngId) && Truthy(OfString(info.srcUrl)) then
      LegacyClick(Some(DownloadImageAsPng(info.srcUrl.value)), info)
    else
      var record := info.(menuItemId := OfString(info.srcUrl));
      LegacyClick(if Truthy(OfString(info.srcUrl)) then Some(DownloadAndCompressImageAsPng(info.srcUrl.value)) else None, record)
  }

  /** The listener step by step, with the record as a local that the second
      test overwrites. */
  method OnClicked(info: ContextMenu.ClickInfo) returns (request: Option<LegacyRequest>, record: ContextMenu.ClickInfo)
    ensures LegacyClick(request, record) == LegacyDispatch(info)
  {
    record := info;
    request := None;
    if record.menuItemId == Str(DownloadAsPngId) && Truthy(OfString(record.srcUrl)) {
      request := Some(DownloadImageAsPng(record.srcUrl.value));
    } else {
      var newId := And(Str(CompressedPngId), OfString(record.srcUrl));
      record := record.(menuItemId := newId);
      if Truthy(newId) {
        request := Some(DownloadAndCompressImageAsPng(record.srcUrl.value));
      }
    }
  }

  /** The listener as evidently intended, with both tests comparing ids. */
  function IntendedLegacyDispatch(info: ContextMenu.ClickInfo): (r: Option<LegacyRequest>)
    ensures r.Some? ==> Truthy(OfString(info.srcUrl)) && r.value.url == info.srcUrl.value
    ensures r.Some? && r.value.DownloadImageAsPng? <==> Truthy(OfString(info.srcUrl)) && info.menuItemId == Str(DownloadAsPngId)
    ensures r.Some? && r.value.DownloadAndCompressImageAsPng? <==> Truthy(OfString(info.srcUrl)) && info.menuItemId == Str(CompressedPngId)
  {
    if info.menuItemId == Str(DownloadAsPngId) && Truthy(OfString(info.srcUrl)) then
      Some(DownloadImageAsPng(info.srcUrl.value))
    else if info.menuItemId == Str(CompressedPngId) && Truthy(OfString(info.srcUrl)) then
      Some(DownloadAndCompressImageAsPng(info.srcUrl.value))
    else
      None
  }

  /** The intended listener fires exactly for the two submenu entries, and
      agrees with the listener as written wherever it fires. */
  lemma IntendedFiresExactlyForSubmenuItems(info: ContextMenu.ClickInfo)
    ensures IntendedLegacyDispatch(info).Some? <==> Truthy(OfString(info.srcUrl)) && ContextMenu.IsSubmenuItem(LegacyMenuEntries(), info.menuItemId)
    ensures IntendedLegacyDispatch(info).Some? ==> LegacyDispatch(info).request == IntendedLegacyDispatch(info)
  {
    if info.menuItemId == Str(DownloadAsPngId) {
      assert LegacyMenuEntries()[1] in LegacyMenuEntries();
    } else if info.menuItemId == Str(CompressedPngId) {
      assert LegacyMenuEntries()[2] in LegacyMenuEntries();
    }
  }

  /** The assignment at work: a click on the parent entry (not a submenu item)
      on an image starts a compressed download and leaves the URL as the
      record's id, where the intended listener does nothing. */
  lemma ParentClickStartsCompression(url: string)
    requires url != ""
    ensures LegacyDispatch(ContextMenu.ClickInfo(Str(ContextMenu.ParentId), Some(url))) ==
              LegacyClick(Some(DownloadAndCompressImageAsPng(url)), ContextMenu.ClickInfo(Str(url), Some(url)))
    ensures IntendedLegacyDispatch(ContextMenu.ClickInfo(Str(ContextMenu.ParentId), Some(url))) == None
  {
  }

  /** `Math.round`: the nearest integer, halves rounded up. */
  function Round(x: real): (r: int)
    ensures x - 0.5 < r as real <= x + 0.5
  {
    (x + 0.5).Floor
  }

  /** `Math.round(a / b)` for a non-negative `a` and positive `b`, in integers. */
  function RoundDiv(a: nat, b: nat): nat
    requires b > 0
  {
    (2 * a + b) / (2 * b)
  }

  lemma FloorOfQuotient(n: nat, d: nat)
    requires d > 0
    ensures (n as real / d as real).Floor == n / d
  {
    var q, r := n / d, n % d;
    assert n == d * q + r;
    assert n as real == d as real * q as real + r as real;
    assert 0.0 <= r as real / d as real < 1.0;
    assert n as real / d as real == q as real + r as real / d as real;
  }

  lemma RoundOfQuotient(a: nat, b: nat)
    requires b > 0
    ensures Round(a as real / b as real) == RoundDiv(a, b)
  {
    var x, y := a as real, b as real;
    assert (2.0 * x + y) / (2.0 * y) == (2.0 * x) / (2.0 * y) + y / (2.0 * y);
    assert (2.0 * x) / (2.0 * y) == x / y;
    assert y / (2.0 * y) == 0.5;
    assert (2 * a + b) as real == 2.0 * x + y && (2 * b) as real == 2.0 * y;
    FloorOfQuotient(2 * a + b, 2 * b);
  }

  lemma {:induction false} DivAtMost(n: nat, d: nat, k: nat)
    requires d > 0 && n < d * (k + 1)
    ensures n / d <= k
  {
    assert d * (n / d) + n % d == n;
  }

  lemma RoundDivAtMost(a: nat, b: nat, k: nat)
    requires b > 0 && a <= k * b
    ensures RoundDiv(a, b) <= k
  {
    assert 2 * a + b < (2 * b) * (k + 1);
    DivAtMost(2 * a + b, 2 * b, k);
  }

  datatype Dims = Dims(width: nat, height: nat)

  /** The fitted size: the longer side (the height, for a square) is brought
      down to 300 when it exceeds 300, and the other side scaled by the same
      factor and rounded. */
  function FitWithin300(width: nat, height: nat): (d: Dims)
    ensures width > height && width > MaxWidth ==> d.width == MaxWidth
    ensures width <= height && height > MaxHeight ==> d.height == MaxHeight
    ensures (width > height ==> width <= MaxWidth) && (width <= height ==> height <= MaxHeight) ==>
              d == Dims(width, height)
  {
    if width > height then
      if width > MaxWidth then Dims(MaxWidth, RoundDiv(height * MaxWidth, width)) else Dims(width, height)
    else
      if height > MaxHeight then Dims(RoundDiv(width * MaxHeight, height), MaxHeight) else Dims(width, height)
  }

  /** A landscape image wider than 300 becomes 300 wide, its height the
      rounded proportional height. */
  lemma FitLandscape(width: nat, height: nat)
    requires width > height && width > MaxWidth
    ensures FitWithin300(width, height) == Dims(MaxWidth, Round(height as real * MaxWidth as real / width as real))
  {
    RoundOfQuotient(height * MaxWidth, width);
  }

  /** A portrait or square image taller than 300 becomes 300 tall, its width
      the rounded proportional width. */
  lemma FitPortrait(width: nat, height: nat)
    requires width <= height && height > MaxHeight
    ensures FitWithin300(width, height) == Dims(Round(width as real * MaxHeight as real / height as real), MaxHeight)
  {
    RoundOfQuotient(width * MaxHeight, height);
  }

  /** No upscaling: when the governing side is within 300 the size is kept. */
  lemma FitKeepsSmallImages(width: nat, height: nat)
    requires width > height ==> width <= MaxWidth
    requires width <= height ==> height <= MaxHeight
    ensures FitWithin300(width, height) == Dims(width, height)
  {
  }

  /** Every fitted size is within 300 x 300 and within the original size. */
  lemma FitBounds(width: nat, height: nat)
    ensures FitWithin300(width, height).width <= MaxWidth
    ensures FitWithin300(width, height).height <= MaxHeight
    ensures FitWithin300(width, height).width <= width
    ensures FitWithin300(width, height).height <= height
  {
    if width > height && width > MaxWidth {
      RoundDivAtMost(height * MaxWidth, width, height);
      RoundDivAtMost(height * MaxWidth, width, MaxWidth);
    } else if width <= height && height > MaxHeight {
      RoundDivAtMost(width * MaxHeight, height, width);
      RoundDivAtMost(width * MaxHeight, height, MaxHeight);
    }
  }

  /** The size computation of the compressed download, on the local variables
      the script reassigns: the scaled side is multiplied by the exact factor
      300 / (longer side) and rounded. A division happens only when its
      divisor exceeds 300, so it is never by zero. */
  method FitDimensions(bitmap: Bitmap) returns (width: int, height: int)
    ensures 0 <= width <= MaxWidth && 0 <= height <= MaxHeight
    ensures width <= bitmap.width && height <= bitmap.height
    ensures Dims(width, height) == FitWithin300(bitmap.width, bitmap.height)
  {
    width := bitmap.width;
    height := bitmap.height;
    if width > height {
      if width > MaxWidth {
        var scaled: real := height as real * (MaxWidth as real / width as real);
        RoundOfQuotient(height * MaxWidth, width);
        height := Round(scaled);
        width := MaxWidth;
      }
    } else {
      if height > MaxHeight {
        var scaled: real := width as real * (MaxHeight as real / height as real);
        RoundOfQuotient(width * MaxHeight, height);
        width := Round(scaled);
        height := MaxHeight;
      }
    }
    FitBounds(bitmap.width, bitmap.height);
  }

  /** `downloadImageAsPng`: draw at the bitmap's size and save as PNG under a
      fixed name. Nothing is checked or caught: a missing context or a null
      blob is dereferenced and the failure is unhandled. */
  function DownloadImageAsPngOutcome(host: Host): (o: Outcome)
    ensures o.Downloaded? ==> host.bitmap.Some? && host.hasContext && host.encodes(o.request)
    ensures o.Downloaded? ==>
              o.request == EncodeRequest(Size(host.bitmap.value.width as real, host.bitmap.value.height as real), PngMime) &&
              o.filename == PlainFilename
    ensures host.bitmap.Some? && host.hasContext &&
            host.encodes(EncodeRequest(Size(host.bitmap.value.width as real, host.bitmap.value.height as real), PngMime)) ==>
              o.Downloaded?
    ensures o.Failed? ==> !o.handled
    ensures host.bitmap.None? ==> o == Failed(FetchFailed, false)
    ensures host.bitmap.Some? && !host.hasContext ==> o == Failed(NullContextUsed, false)
    ensures host.bitmap.Some? && host.hasContext &&
            !host.encodes(EncodeRequest(Size(host.bitmap.value.width as real, host.bitmap.value.height as real), PngMime)) ==>
              o == Failed(NullBlobUsed, false)
    ensures !o.NoBlob?
  {
    match host.bitmap
    case None => Failed(FetchFailed, false)
    case Some(b) =>
      if !host.hasContext then
        Failed(NullContextUsed, false)
      else
        var request := EncodeRequest(Size(b.width as real, b.height as real), PngMime);
        if host.encodes(request) then Downloaded(request, PlainFilename) else Failed(NullBlobUsed, false)
  }

  /** `downloadAndCompressImageAsPng`: draw at the fitted size and save as PNG
      under a fixed name. Failures inside the promise chain reach its
      `.catch`; a null blob fails inside the encoder callback, outside it. */
  function DownloadAndCompressImageAsPngOutcome(host: Host): (o: Outcome)
    ensures o.Downloaded? ==> host.bitmap.Some? && host.hasContext && host.encodes(o.request)
    ensures o.Downloaded? ==>
              var d := FitWithin300(host.bitmap.value.width, host.bitmap.value.height);
              o.request == EncodeRequest(Size(d.width as real, d.height as real), PngMime) &&
              o.filename == CompressedFilename
    ensures host.bitmap.Some? && host.hasContext &&
            (var d := FitWithin300(host.bitmap.value.width, host.bitmap.value.height);
             host.encodes(EncodeRequest(Size(d.width as real, d.height as real), PngMime))) ==>
              o.Downloaded?
    ensures o.Failed? ==> (o.handled <==> o.failure != NullBlobUsed)
    ensures host.bitmap.None? ==> o == Failed(FetchFailed, true)
    ensures host.bitmap.Some? && !host.hasContext ==> o == Failed(NullContextUsed, true)
    ensures host.bitmap.Some? && host.hasContext &&
            (var d := FitWithin300(host.bitmap.value.width, host.bitmap.value.height);
             !host.encodes(EncodeRequest(Size(d.width as real, d.height as real), PngMime))) ==>
              o == Failed(NullBlobUsed, false)
    ensures !o.NoBlob?
  {
    match host.bitmap
    case None => Failed(FetchFailed, true)
    case Some(b) =>
      if !host.hasContext then
        Failed(NullContextUsed, true)
      else
        var d := FitWithin300(b.width, b.height);
        var request := EncodeRequest(Size(d.width as real, d.height as real), PngMime);
        if host.encodes(request) then Downloaded(request, CompressedFilename) else Failed(NullBlobUsed, false)
  }

  /** A compressed legacy download is never larger than 300 x 300 nor than
      the original. */
  lemma CompressedDownloadIsSmall(host: Host)
    requires DownloadAndCompressImageAsPngOutcome(host).Downloaded?
    ensures DownloadAndCompressImageAsPngOutcome(host).request.size.width <= MaxWidth as real
    ensures DownloadAndCompressImageAsPngOutcome(host).request.size.height <= MaxHeight as real
    ensures DownloadAndCompressImageAsPngOutcome(host).request.size.width <= host.bitmap.value.width as real
    ensures DownloadAndCompressImageAsPngOutcome(host).request.size.height <= host.bitmap.value.height as real
  {
    FitBounds(host.bitmap.value.width, host.bitmap.value.height);
  }

  /** Running a legacy request in the page. */
  function RunLegacy(request: LegacyRequest, host: Host): Outcome {
    match request
    case DownloadImageAsPng(_) => DownloadImageAsPngOutcome(host)
    case DownloadAndCompressImageAsPng(_) => DownloadAndCompressImageAsPngOutcome(host)
  }

  /** Whichever legacy request runs, a download is PNG, under one of the two
      fixed names. */
  lemma LegacyDownloadsArePng(request: LegacyRequest, host: Host)
    requires RunLegacy(request, host).Downloaded?
    ensures RunLegacy(request, host).request.mime == PngMime
    ensures RunLegacy(request, host).filename ==
              if request.DownloadImageAsPng? then PlainFilename else CompressedFilename
  {
  }
}
