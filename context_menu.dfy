/** The context menu of src/background.ts: the three entries registered on
    install (lines 48-68) and the click listener (lines 71-85) that turns a
    click into at most one request to run a conversion function in the page,
    with the cached settings as its arguments. */
module ContextMenu {
  import opened Js
  import opened SettingsCache
  import opened Conversion

  const ParentId: string := "imageConverter"
  const DownloadId: string := "download"
  const CompressId: string := "downloadAsCompresse"
  const ImageContext: string := "image"

  /** One registered entry; `titleKey` names the localized message used as its title. */
  datatype MenuEntry = MenuEntry(id: string, parentId: Option<string>, titleKey: string, contexts: seq<string>)

  /** The click record the host passes to the listener: the entry's id (a
      string or a number) and the clicked image's URL, when there is one. */
  datatype ClickInfo = ClickInfo(menuItemId: JsValue, srcUrl: Option<string>)

  /** The injected-script call the listener asks for: which conversion
      function, with which arguments. */
  datatype Request =
    | RunDownloadImage(url: string, format: string)
    | RunDownloadAndCompressImage(url: string, format: string, ratio: int)

  /** A menu as registered: distinct ids, all shown only on images, and one
      root entry (the only one without a parent) under which every other
      entry sits. */
  predicate WellFormedMenu(entries: seq<MenuEntry>, root: string) {
    (forall i, j :: 0 <= i < j < |entries| ==> entries[i].id != entries[j].id) &&
    (forall e :: e in entries ==> e.contexts == [ImageContext]) &&
    (forall e :: e in entries ==> (e.parentId == None <==> e.id == root)) &&
    (forall e :: e in entries && e.parentId.Some? ==> e.parentId.value == root)
  }

  /** The three entries registered on install: the parent and its two children. */
  function MenuEntries(): (m: seq<MenuEntry>)
    ensures |m| == 3 && WellFormedMenu(m, ParentId)
    ensures forall e :: e in m && e.parentId.Some? ==> e.id == DownloadId || e.id == CompressId
  {
    [ MenuEntry(ParentId, None, "menuTitle", [ImageContext]),
      MenuEntry(DownloadId, Some(ParentId), "download", [ImageContext]),
      MenuEntry(CompressId, Some(ParentId), "downloadCompresse", [ImageContext]) ]
  }

  /** Whether `id` names a submenu entry of `entries`, i.e. one that has a parent. */
  predicate IsSubmenuItem(entries: seq<MenuEntry>, id: JsValue) {
    exists e :: e in entries && e.parentId.Some? && id == Str(e.id)
  }

  /** The click listener, given the cached settings at the time of the click. */
  function Dispatch(info: ClickInfo, current: Settings): (r: Option<Request>)
    ensures r.Some? ==> Truthy(OfString(info.srcUrl))
    ensures r.Some? ==> r.value.url == info.srcUrl.value && r.value.format == current.imageFormat
    ensures r.Some? && r.value.RunDownloadImage? <==> Truthy(OfString(info.srcUrl)) && info.menuItemId == Str(DownloadId)
    ensures r.Some? && r.value.RunDownloadAndCompressImage? <==> Truthy(OfString(info.srcUrl)) && info.menuItemId == Str(CompressId)
    ensures r.Some? && r.value.RunDownloadAndCompressImage? ==> r.value.ratio == current.compressionRatio
  {
    if info.menuItemId == Str(DownloadId) && Truthy(OfString(info.srcUrl)) then
      Some(RunDownloadImage(info.srcUrl.value, current.imageFormat))
    else if info.menuItemId == Str(CompressId) && Truthy(OfString(info.srcUrl)) then
      Some(RunDownloadAndCompressImage(info.srcUrl.value, current.imageFormat, current.compressionRatio))
    else
      None
  }

  /** A click leads to a request exactly when it is on one of the two submenu
      entries and carries a non-empty image URL; the parent entry, unknown ids
      and numeric ids never do. */
  lemma DispatchFiresExactlyForSubmenuItems(info: ClickInfo, current: Settings)
    ensures Dispatch(info, current).Some? <==> Truthy(OfString(info.srcUrl)) && IsSubmenuItem(MenuEntries(), info.menuItemId)
  {
    if info.menuItemId == Str(DownloadId) {
      assert MenuEntries()[1] in MenuEntries();
    } else if info.menuItemId == Str(CompressId) {
      assert MenuEntries()[2] in MenuEntries();
    }
  }

  /** Running the requested function in the page. */
  function Run(request: Request, host: Host): Outcome {
    match request
    case RunDownloadImage(_, format) => DownloadImage(format, host)
    case RunDownloadAndCompressImage(_, format, ratio) => DownloadAndCompressImage(format, ratio, host)
  }

  /** End to end: whichever entry was clicked, a saved file carries the cached
      format as its extension, and PNG bytes are asked for exactly when that
      format is "png". */
  lemma ClickSavesInCachedFormat(info: ClickInfo, current: Settings, host: Host)
    requires Dispatch(info, current).Some?
    requires Run(Dispatch(info, current).value, host).Downloaded?
    ensures SplitFilename(Run(Dispatch(info, current).value, host).filename) == Some((host.nowMs / 1000, current.imageFormat))
    ensures Run(Dispatch(info, current).value, host).request.mime == PngMime <==> current.imageFormat == PngFormat
  {
    FilenameRoundTrip(host.nowMs, current.imageFormat);
  }
}
