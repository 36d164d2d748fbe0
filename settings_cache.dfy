/** The background worker's in-memory copy of the two synchronized settings
    (src/background.ts:18-45): an image format and a compression ratio, filled
    in once from storage at startup and refreshed by every storage change
    notification. */
module SettingsCache {
  import opened Js

  const DefaultImageFormat: string := "jpg"
  const DefaultCompressionRatio: int := 100
  const SyncArea: string := "sync"

  datatype Settings = Settings(imageFormat: string, compressionRatio: int)

  /** What the startup read of storage returns: a key that was never saved is absent. */
  datatype Stored = Stored(imageFormat: Option<string>, compressionRatio: Option<int>)

  /** A change notification's payload: `Some(v)` when the key is among the
      changed keys, `v` being its new value. */
  datatype Changes = Changes(imageFormat: Option<string>, compressionRatio: Option<int>)

  /** A storage event as the worker receives it. */
  datatype Event = StartupRead(stored: Stored) | Changed(changes: Changes, areaName: string)

  function Defaults(): (s: Settings)
    ensures s.imageFormat == "jpg" && s.compressionRatio == 100
  {
    Settings(DefaultImageFormat, DefaultCompressionRatio)
  }

  /** The settings after the startup read: each key independently replaces the
      current value only when the stored value is truthy, so an empty format or
      a ratio of 0 is ignored just like an absent key. */
  function AfterStartup(s: Settings, stored: Stored): (t: Settings)
    ensures stored.imageFormat.Some? && stored.imageFormat.value != "" ==>
              t.imageFormat == stored.imageFormat.value
    ensures stored.imageFormat == None || stored.imageFormat == Some("") ==>
              t.imageFormat == s.imageFormat
    ensures stored.compressionRatio.Some? && stored.compressionRatio.value != 0 ==>
              t.compressionRatio == stored.compressionRatio.value
    ensures stored.compressionRatio == None || stored.compressionRatio == Some(0) ==>
              t.compressionRatio == s.compressionRatio
  {
    var format := if Truthy(OfString(stored.imageFormat)) then stored.imageFormat.value else s.imageFormat;
    var ratio := if Truthy(OfNumber(stored.compressionRatio)) then stored.compressionRatio.value else s.compressionRatio;
    Settings(format, ratio)
  }

  /** The settings after a change notification: outside the "sync" area nothing
      changes; inside it every key present takes its new value verbatim, even a
      falsy one, and a key not present keeps its value. */
  function AfterChange(s: Settings, changes: Changes, areaName: string): (t: Settings)
    ensures areaName != SyncArea ==> t == s
    ensures areaName == SyncArea && changes.imageFormat.Some? ==>
              t.imageFormat == changes.imageFormat.value
    ensures areaName == SyncArea && changes.compressionRatio.Some? ==>
              t.compressionRatio == changes.compressionRatio.value
    ensures changes.imageFormat.None? ==> t.imageFormat == s.imageFormat
    ensures changes.compressionRatio.None? ==> t.compressionRatio == s.compressionRatio
  {
    if areaName == SyncArea then
      var format := if changes.imageFormat.Some? then changes.imageFormat.value else s.imageFormat;
      var ratio := if changes.compressionRatio.Some? then changes.compressionRatio.value else s.compressionRatio;
      Settings(format, ratio)
    else
      s
  }

  function Step(s: Settings, e: Event): Settings {
    match e
    case StartupRead(stored) => AfterStartup(s, stored)
    case Changed(changes, areaName) => AfterChange(s, changes, areaName)
  }

  /** The settings after a sequence of storage events, oldest first. */
  function Replay(s: Settings, events: seq<Event>): Settings {
    if events == [] then s else Step(Replay(s, events[..|events| - 1]), events[|events| - 1])
  }

  /** Whether an event can change the cached image format at all. */
  predicate SetsFormat(e: Event) {
    match e
    case StartupRead(stored) => Truthy(OfString(stored.imageFormat))
    case Changed(changes, areaName) => areaName == SyncArea && changes.imageFormat.Some?
  }

  /** Whether an event can change the cached compression ratio at all. */
  predicate SetsRatio(e: Event) {
    match e
    case StartupRead(stored) => Truthy(OfNumber(stored.compressionRatio))
    case Changed(changes, areaName) => areaName == SyncArea && changes.compressionRatio.Some?
  }

  /** The format an event that sets it writes: a truthy stored value or a
      sync change's new value. */
  function FormatWritten(e: Event): string
    requires SetsFormat(e)
  {
    match e
    case StartupRead(stored) => stored.imageFormat.value
    case Changed(changes, _) => changes.imageFormat.value
  }

  /** The ratio an event that sets it writes. */
  function RatioWritten(e: Event): int
    requires SetsRatio(e)
  {
    match e
    case StartupRead(stored) => stored.compressionRatio.value
    case Changed(changes, _) => changes.compressionRatio.value
  }

  /** The last event that sets the format decides it, whether that is the
      startup read or a sync change: later events that do not set the format
      leave it as that event wrote it. */
  lemma {:induction false} LastFormatWriteWins(s: Settings, events: seq<Event>, i: nat)
    requires i < |events| && SetsFormat(events[i])
    requires forall j :: i < j < |events| ==> !SetsFormat(events[j])
    ensures Replay(s, events).imageFormat == FormatWritten(events[i])
  {
    if i < |events| - 1 {
      LastFormatWriteWins(s, events[..|events| - 1], i);
      assert events[..|events| - 1][i] == events[i];
      assert !SetsFormat(events[|events| - 1]);
    }
  }

  /** The last event that sets the ratio decides it, even when a sync change
      sets it to 0; later events that do not set the ratio leave it alone. */
  lemma {:induction false} LastRatioWriteWins(s: Settings, events: seq<Event>, i: nat)
    requires i < |events| && SetsRatio(events[i])
    requires forall j :: i < j < |events| ==> !SetsRatio(events[j])
    ensures Replay(s, events).compressionRatio == RatioWritten(events[i])
  {
    if i < |events| - 1 {
      LastRatioWriteWins(s, events[..|events| - 1], i);
      assert events[..|events| - 1][i] == events[i];
      assert !SetsRatio(events[|events| - 1]);
    }
  }

  /** Events that set neither key leave the cache exactly as it was. */
  lemma {:induction false} QuietEventsChangeNothing(s: Settings, events: seq<Event>)
    requires forall j :: 0 <= j < |events| ==> !SetsFormat(events[j]) && !SetsRatio(events[j])
    ensures Replay(s, events) == s
  {
    if events != [] {
      QuietEventsChangeNothing(s, events[..|events| - 1]);
      assert !SetsFormat(events[|events| - 1]) && !SetsRatio(events[|events| - 1]);
    }
  }

  /** The truthiness asymmetry: a ratio of 0 read at startup is ignored, the
      same 0 arriving in a sync change notification is adopted. */
  lemma ZeroRatioAsymmetry(s: Settings)
    requires s.compressionRatio != 0
    ensures AfterStartup(s, Stored(None, Some(0))).compressionRatio == s.compressionRatio
    ensures AfterChange(s, Changes(None, Some(0)), SyncArea).compressionRatio == 0
  {
  }

  /** A notification carrying both keys (as a save that changes both does)
      leaves the cache holding exactly the saved pair, whatever it held before. */
  lemma SavedPairIsCached(s: Settings, format: string, ratio: int)
    ensures AfterChange(s, Changes(Some(format), Some(ratio)), SyncArea) == Settings(format, ratio)
  {
  }

  /** The module-level cache itself: two variables updated in place by the
      startup callback and the change listener. */
  class Cache {
    var imageFormat: string
    var compressionRatio: int

    function Current(): Settings
      reads this
    {
      Settings(imageFormat, compressionRatio)
    }

    /** Before any storage event the cache holds the defaults. */
    constructor ()
      ensures Current() == Defaults()
    {
      imageFormat := DefaultImageFormat;
      compressionRatio := DefaultCompressionRatio;
    }

    /** The startup read callback. */
    method OnStartupRead(stored: Stored)
      modifies this
      ensures Current() == AfterStartup(old(Current()), stored)
      ensures !Truthy(OfString(stored.imageFormat)) ==> imageFormat == old(imageFormat)
      ensures !Truthy(OfNumber(stored.compressionRatio)) ==> compressionRatio == old(compressionRatio)
    {
      if Truthy(OfString(stored.imageFormat)) {
        imageFormat := stored.imageFormat.value;
      }
      if Truthy(OfNumber(stored.compressionRatio)) {
        compressionRatio := stored.compressionRatio.value;
      }
    }

    /** The storage change listener. */
    method OnStorageChanged(changes: Changes, areaName: string)
      modifies this
      ensures Current() == AfterChange(old(Current()), changes, areaName)
      ensures areaName != SyncArea ==> Current() == old(Current())
      ensures changes.imageFormat.None? ==> imageFormat == old(imageFormat)
      ensures changes.compressionRatio.None? ==> compressionRatio == old(compressionRatio)
    {
      if areaName == SyncArea {
        if changes.imageFormat.Some? {
          imageFormat := changes.imageFormat.value;
        }
        if changes.compressionRatio.Some? {
          compressionRatio := changes.compressionRatio.value;
        }
      }
    }
  }
}
