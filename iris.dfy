/**
 * The filtering part of `_get_iris_availability`: the parsed XML response is
 * an input sequence of stations, each with its channels, their availability
 * time spans and the extents inside them; times are integers.
 */
module Iris {
  import opened DottedKeys
  import opened Geo

  datatype Extent = Extent(start: int, end: int)

  /** One `Availability` element of a channel. */
  datatype TimeSpan = TimeSpan(extents: seq<Extent>)

  datatype Channel = Channel(locationCode: string, channelCode: string, availability: seq<TimeSpan>)

  datatype Station = Station(
    networkCode: string, stationCode: string,
    latitude: real, longitude: real,
    channels: seq<Channel>)

  /** The requested `starttime` and `endtime`. */
  datatype Window = Window(start: int, end: int)

  /** Lines 125-127: both ends of the requested window lie inside the extent. */
  predicate Covers(extent: Extent, window: Window)
  {
    extent.start <= window.start <= extent.end && extent.start <= window.end <= extent.end
  }

  predicate AnyCovers(extents: seq<Extent>, window: Window)
  {
    exists x :: 0 <= x < |extents| && Covers(extents[x], window)
  }

  /** Some single extent of some time span covers the window. */
  predicate Covered(spans: seq<TimeSpan>, window: Window)
  {
    exists t :: 0 <= t < |spans| && AnyCovers(spans[t].extents, window)
  }

  /** `"%s.%s.%s.%s" % (network_code, station_code, location_code, channel_code)`. */
  function ChannelKey(station: Station, channel: Channel): string
  {
    DottedKey(station.networkCode, station.stationCode, channel.locationCode, channel.channelCode)
  }

  function PositionOf(station: Station): Location
  {
    Location(station.latitude, station.longitude)
  }

  /** The keys of the covered channels among `channels` of `station`. */
  function CoveredKeys(station: Station, channels: seq<Channel>, window: Window): set<string>
  {
    set c | c in channels && Covered(c.availability, window) :: ChannelKey(station, c)
  }

  /** What one station writes when it lies in the box (the caller checks the box). */
  function StationEntries(station: Station, channels: seq<Channel>, window: Window): map<string, Location>
  {
    map key | key in CoveredKeys(station, channels, window) :: PositionOf(station)
  }

  /** A station in the closed box emits the keys of its covered channels. */
  predicate Emits(station: Station, box: Box, window: Window, key: string)
  {
    InBox(box, station.latitude, station.longitude) && key in CoveredKeys(station, station.channels, window)
  }

  /** The map built by the loops over `stations`, a later station overwriting an earlier one. */
  function IrisChannels(stations: seq<Station>, box: Box, window: Window): map<string, Location>
  {
    if |stations| == 0 then map[]
    else
      var last := stations[|stations| - 1];
      IrisChannels(stations[..|stations| - 1], box, window)
        + (if InBox(box, last.latitude, last.longitude) then StationEntries(last, last.channels, window) else map[])
  }

  // ---------------------------------------------------------------------------
  // What the map means.

  /**
   * A key is available exactly when some station in the box has a channel
   * with that key and an extent that covers the whole window.
   */
  lemma {:induction false} IrisChannelsKeys(stations: seq<Station>, box: Box, window: Window, key: string)
    ensures key in IrisChannels(stations, box, window) <==>
      exists i :: 0 <= i < |stations| && Emits(stations[i], box, window, key)
  {
    if |stations| > 0 {
      var n := |stations| - 1;
      var init := stations[..n];
      IrisChannelsKeys(init, box, window, key);
      if exists i :: 0 <= i < |stations| && Emits(stations[i], box, window, key) {
        var i :| 0 <= i < |stations| && Emits(stations[i], box, window, key);
        if i < n {
          assert init[i] == stations[i];
        }
      }
      if exists i :: 0 <= i < n && Emits(init[i], box, window, key) {
        var i :| 0 <= i < n && Emits(init[i], box, window, key);
        assert stations[i] == init[i];
      }
    }
  }

  /** `stations[i]` is the last station that writes `key`. */
  predicate LastEmitter(stations: seq<Station>, box: Box, window: Window, key: string, i: int)
  {
    && 0 <= i < |stations| && Emits(stations[i], box, window, key)
    && forall j :: i < j < |stations| ==> !Emits(stations[j], box, window, key)
  }

  /**
   * An available key carries the position of the last station that emits it,
   * so if several stations emit one key the later one wins.
   */
  lemma {:induction false} IrisChannelsValue(stations: seq<Station>, box: Box, window: Window, key: string)
    requires key in IrisChannels(stations, box, window)
    ensures exists i :: (LastEmitter(stations, box, window, key, i)
      && IrisChannels(stations, box, window)[key] == PositionOf(stations[i]))
  {
    var n := |stations| - 1;
    var last := stations[n];
    var init := stations[..n];
    if Emits(last, box, window, key) {
      assert LastEmitter(stations, box, window, key, n);
      assert IrisChannels(stations, box, window)[key] == PositionOf(last);
    } else {
      IrisChannelsValue(init, box, window, key);
      var i :| (LastEmitter(init, box, window, key, i)
        && IrisChannels(init, box, window)[key] == PositionOf(init[i]));
      assert stations == init + [last];
      LastEmitterSnoc(init, last, box, window, key, i);
      assert IrisChannels(stations, box, window)[key] == IrisChannels(init, box, window)[key];
    }
  }

  /** A station that does not write the key leaves the last writer in place. */
  lemma LastEmitterSnoc(init: seq<Station>, last: Station, box: Box, window: Window, key: string, i: int)
    requires LastEmitter(init, box, window, key, i) && !Emits(last, box, window, key)
    ensures LastEmitter(init + [last], box, window, key, i)
    ensures (init + [last])[i] == init[i]
  {
    var stations := init + [last];
    forall j | i < j < |stations| ensures !Emits(stations[j], box, window, key) {
      if j < |init| {
        assert stations[j] == init[j];
      }
    }
  }

  /** Every available channel lies in the closed box. */
  lemma IrisChannelsInBox(stations: seq<Station>, box: Box, window: Window, key: string)
    requires key in IrisChannels(stations, box, window)
    ensures InBox(box, IrisChannels(stations, box, window)[key].latitude, IrisChannels(stations, box, window)[key].longitude)
  {
    IrisChannelsValue(stations, box, window, key);
  }

  /** For a window with `start <= end`, covering means the extent contains the window. */
  lemma CoversIsContainment(extent: Extent, window: Window)
    requires window.start <= window.end
    ensures Covers(extent, window) <==> extent.start <= window.start && window.end <= extent.end
  {
  }

  /** Two adjoining extents that only together hold the window do not cover it. */
  lemma SplitExtentsDoNotCover()
    ensures !Covered([TimeSpan([Extent(0, 5), Extent(5, 10)])], Window(3, 7))
  {
    var extents := [Extent(0, 5), Extent(5, 10)];
    assert !AnyCovers(extents, Window(3, 7)) by {
      forall x | 0 <= x < |extents| ensures !Covers(extents[x], Window(3, 7)) { }
    }
  }

  // ---------------------------------------------------------------------------
  // Lines 107-131: the loops.

  lemma CoveredKeysSnoc(station: Station, channels: seq<Channel>, channel: Channel, window: Window)
    ensures CoveredKeys(station, channels + [channel], window)
         == CoveredKeys(station, channels, window)
          + (if Covered(channel.availability, window) then {ChannelKey(station, channel)} else {})
  {
  }

  lemma CoveredSnoc(spans: seq<TimeSpan>, span: TimeSpan, window: Window)
    ensures Covered(spans + [span], window) <==> Covered(spans, window) || AnyCovers(span.extents, window)
  {
    if AnyCovers(span.extents, window) {
      assert (spans + [span])[|spans|] == span;
    }
    if Covered(spans, window) {
      var t :| 0 <= t < |spans| && AnyCovers(spans[t].extents, window);
      assert (spans + [span])[t] == spans[t];
    }
    if Covered(spans + [span], window) && !AnyCovers(span.extents, window) {
      var t :| 0 <= t < |spans| + 1 && AnyCovers((spans + [span])[t].extents, window);
      assert t < |spans| && (spans + [span])[t] == spans[t];
    }
  }

  lemma AnyCoversSnoc(extents: seq<Extent>, extent: Extent, window: Window)
    ensures AnyCovers(extents + [extent], window) <==> AnyCovers(extents, window) || Covers(extent, window)
  {
    if Covers(extent, window) {
      assert (extents + [extent])[|extents|] == extent;
    }
    if AnyCovers(extents, window) {
      var x :| 0 <= x < |extents| && Covers(extents[x], window);
      assert (extents + [extent])[x] == extents[x];
    }
    if AnyCovers(extents + [extent], window) && !Covers(extent, window) {
      var x :| 0 <= x < |extents| + 1 && Covers((extents + [extent])[x], window);
      assert x < |extents| && (extents + [extent])[x] == extents[x];
    }
  }

  /** Adding one channel to what a station wrote so far. */
  lemma StationEntriesSnoc(base: map<string, Location>, station: Station, channels: seq<Channel>, channel: Channel, window: Window)
    ensures base + StationEntries(station, channels + [channel], window)
         == (if Covered(channel.availability, window)
             then (base + StationEntries(station, channels, window))[ChannelKey(station, channel) := PositionOf(station)]
             else base + StationEntries(station, channels, window))
  {
    CoveredKeysSnoc(station, channels, channel, window);
  }

  /**
   * The inner loops over one channel's time spans and extents: the channel's
   * key is written, with the station's position, once some extent covers the window.
   */
  method ScanChannel(available: map<string, Location>, station: Station, channel: Channel, window: Window)
    returns (updated: map<string, Location>)
    ensures updated == if Covered(channel.availability, window)
      then available[ChannelKey(station, channel) := PositionOf(station)] else available
  {
    updated := available;
    var key := ChannelKey(station, channel);
    var spans := channel.availability;
    for t := 0 to |spans|
      invariant updated == if Covered(spans[..t], window) then available[key := PositionOf(station)] else available
    {
      var timeSpan := spans[t];
      for x := 0 to |timeSpan.extents|
        invariant updated == if Covered(spans[..t], window) || AnyCovers(timeSpan.extents[..x], window)
          then available[key := PositionOf(station)] else available
      {
        var extent := timeSpan.extents[x];
        if (extent.start <= window.start <= extent.end) && (extent.start <= window.end <= extent.end) {
          updated := updated[key := Location(station.latitude, station.longitude)];
        }
        assert timeSpan.extents[..x + 1] == timeSpan.extents[..x] + [extent];
        AnyCoversSnoc(timeSpan.extents[..x], extent, window);
      }
      assert spans[..t + 1] == spans[..t] + [timeSpan];
      assert timeSpan.extents[..|timeSpan.extents|] == timeSpan.extents;
      CoveredSnoc(spans[..t], timeSpan, window);
    }
    assert spans[..|spans|] == spans;
  }

  /**
   * `_get_iris_availability` after the remote call and the XML parsing
   * (lines 107-131).
   */
  method IrisAvailability(stations: seq<Station>, box: Box, window: Window) returns (available: map<string, Location>)
    ensures available == IrisChannels(stations, box, window)
    ensures forall key :: key in available <==> exists i :: 0 <= i < |stations| && Emits(stations[i], box, window, key)
  {
    available := map[];
    for i := 0 to |stations|
      invariant available == IrisChannels(stations[..i], box, window)
    {
      var station := stations[i];
      assert stations[..i + 1][..i] == stations[..i];
      var latitude, longitude := station.latitude, station.longitude;
      if !(box.minLat <= latitude <= box.maxLat) || !(box.minLng <= longitude <= box.maxLng) {
        continue;
      }
      available := ScanStation(available, station, window);
    }
    assert stations[..|stations|] == stations;
    forall key ensures key in available <==> exists i :: 0 <= i < |stations| && Emits(stations[i], box, window, key) {
      IrisChannelsKeys(stations, box, window, key);
    }
  }

  /** The loop over one station's channels (lines 118-131). */
  method ScanStation(available: map<string, Location>, station: Station, window: Window)
    returns (updated: map<string, Location>)
    ensures updated == available + StationEntries(station, station.channels, window)
  {
    updated := available;
    for j := 0 to |station.channels|
      invariant updated == available + StationEntries(station, station.channels[..j], window)
    {
      var channel := station.channels[j];
      updated := ScanChannel(updated, station, channel, window);
      assert station.channels[..j + 1] == station.channels[..j] + [channel];
      StationEntriesSnoc(available, station, station.channels[..j], channel, window);
    }
    assert station.channels[..|station.channels|] == station.channels;
  }

}
