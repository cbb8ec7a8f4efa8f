/**
 * The filtering part of `_get_arclink_availability`: the response of
 * `getNetworks` is an input map from dotted keys of one (network), two
 * (station) or four (channel) fields to entries.
 */
module ArcLink {
  import opened DottedKeys
  import opened Geo
  import opened Maps

  /** What the service reports for a key; only station entries are read. */
  datatype Entry = Entry(restricted: bool, latitude: real, longitude: real)

  predicate IsNetworkKey(key: string)
  {
    |Split(key)| == 1
  }

  predicate IsChannelKey(key: string)
  {
    |Split(key)| == 4
  }

  /** `".".join(split_key[:2])`: the `net.sta` half of a channel key. */
  function StationPart(key: string): string
    requires IsChannelKey(key)
  {
    Join(Split(key)[..2])
  }

  /** `".".join(split_key[2:])`: the `loc.chan` half of a channel key. */
  function ChannelPart(key: string): string
    requires IsChannelKey(key)
  {
    Join(Split(key)[2..])
  }

  /** `"%s.%s" % (network_station, loc_channel)`. */
  function Rejoin(pair: (string, string)): string
  {
    KeyOf(pair.0, pair.1)
  }

  function PositionOf(entry: Entry): Location
  {
    Location(entry.latitude, entry.longitude)
  }

  /** A key that the first loop puts into `stations_in_bounds`. */
  predicate KeptStation(everything: map<string, Entry>, box: Box, key: string)
  {
    && key in everything
    && !IsNetworkKey(key) && !IsChannelKey(key)
    && !everything[key].restricted
    && InBox(box, everything[key].latitude, everything[key].longitude)
  }

  /** The channels reported available: those whose station is kept, at the station's position. */
  function ArcLinkChannels(everything: map<string, Entry>, box: Box): (available: map<string, Location>)
    ensures forall key :: key in available ==> IsChannelKey(key) && key in everything
    ensures forall key :: key in available ==> InBox(box, available[key].latitude, available[key].longitude)
  {
    map key | key in everything && IsChannelKey(key) && KeptStation(everything, box, StationPart(key))
      :: PositionOf(everything[StationPart(key)])
  }

  /** The station half of a channel key is a two-field key. */
  lemma StationPartFields(key: string)
    requires IsChannelKey(key)
    ensures |Split(StationPart(key))| == 2
  {
    SplitJoin(Split(key)[..2]);
  }

  /** The two halves of a channel key join back into the key. */
  lemma HalvesRejoin(key: string)
    requires IsChannelKey(key)
    ensures Rejoin((StationPart(key), ChannelPart(key))) == key
  {
    var fields := Split(key);
    assert fields == fields[..2] + fields[2..];
    JoinAppend(fields[..2], fields[2..]);
    JoinSplit(key);
  }

  /** The buffered `channels` list holds the two halves of channel keys of the input. */
  predicate Buffered(everything: map<string, Entry>, channels: seq<(string, string)>)
  {
    forall i :: 0 <= i < |channels| ==>
      var key := Rejoin(channels[i]);
      key in everything && IsChannelKey(key) && channels[i] == (StationPart(key), ChannelPart(key))
  }

  /**
   * Lines 46-69: the first loop sorts the keys into networks (skipped),
   * channels (buffered as halves) and stations (kept when not restricted and
   * in the box).
   */
  method SortEntries(everything: map<string, Entry>, box: Box)
    returns (stationsInBounds: map<string, Location>, channels: seq<(string, string)>)
    ensures forall key :: key in stationsInBounds <==> KeptStation(everything, box, key)
    ensures forall key :: key in stationsInBounds ==>
      key in everything && stationsInBounds[key] == PositionOf(everything[key])
    ensures Buffered(everything, channels)
    ensures forall key :: key in everything && IsChannelKey(key) ==> (StationPart(key), ChannelPart(key)) in channels
  {
    stationsInBounds := map[];
    channels := [];
    var pending := everything.Keys;
    while pending != {}
      invariant pending <= everything.Keys
      invariant forall key :: key in stationsInBounds <==>
        key !in pending && KeptStation(everything, box, key)
      invariant forall key :: key in stationsInBounds ==>
        key in everything && stationsInBounds[key] == PositionOf(everything[key])
      invariant Buffered(everything, channels)
      invariant forall key :: key in everything && key !in pending && IsChannelKey(key) ==>
        (StationPart(key), ChannelPart(key)) in channels
    {
      var key :| key in pending;
      pending := pending - {key};
      var splitKey := Split(key);
      if |splitKey| == 1 {
        continue;
      } else if |splitKey| == 4 {
        HalvesRejoin(key);
        channels := channels + [(Join(splitKey[..2]), Join(splitKey[2..]))];
        continue;
      }
      var value := everything[key];
      if value.restricted {
        continue;
      }
      var latitude, longitude := value.latitude, value.longitude;
      if !(box.minLat <= latitude <= box.maxLat) || !(box.minLng <= longitude <= box.maxLng) {
        continue;
      }
      stationsInBounds := stationsInBounds[key := Location(latitude, longitude)];
    }
  }

  /**
   * Lines 72-75: the second loop emits every buffered channel whose station
   * is in `stations_in_bounds`, with that station's position.
   */
  method EmitChannels(everything: map<string, Entry>, stationsInBounds: map<string, Location>, channels: seq<(string, string)>)
    returns (available: map<string, Location>)
    requires Buffered(everything, channels)
    ensures forall key :: key in available ==>
      key in everything && IsChannelKey(key) && StationPart(key) in stationsInBounds
      && available[key] == stationsInBounds[StationPart(key)]
    ensures forall key :: key in available <==>
      exists j :: 0 <= j < |channels| && channels[j].0 in stationsInBounds && Rejoin(channels[j]) == key
  {
    available := map[];
    var i := 0;
    while i < |channels|
      invariant 0 <= i <= |channels|
      invariant forall key :: key in available ==>
        key in everything && IsChannelKey(key) && StationPart(key) in stationsInBounds
        && available[key] == stationsInBounds[StationPart(key)]
      invariant forall key :: key in available <==>
        exists j :: 0 <= j < i && channels[j].0 in stationsInBounds && Rejoin(channels[j]) == key
    {
      var (networkStation, locChannel) := channels[i];
      if networkStation in stationsInBounds {
        available := available[KeyOf(networkStation, locChannel) := stationsInBounds[networkStation]];
      }
      i := i + 1;
    }
  }

  /** A kept station is one whose entry is not restricted and lies in the box. */
  lemma KeptStationOfChannel(everything: map<string, Entry>, box: Box, key: string)
    requires IsChannelKey(key)
    ensures KeptStation(everything, box, StationPart(key)) <==>
      && StationPart(key) in everything
      && !everything[StationPart(key)].restricted
      && InBox(box, everything[StationPart(key)].latitude, everything[StationPart(key)].longitude)
  {
    StationPartFields(key);
  }

  /**
   * `_get_arclink_availability` after the remote call (lines 46-76): a channel
   * key is available exactly when its `net.sta` entry is a station that is not
   * restricted and lies in the closed box, and it carries that station's position.
   */
  method ArcLinkAvailability(everything: map<string, Entry>, box: Box) returns (available: map<string, Location>)
    ensures forall key :: key in available <==>
      && key in everything && IsChannelKey(key)
      && StationPart(key) in everything
      && !everything[StationPart(key)].restricted
      && InBox(box, everything[StationPart(key)].latitude, everything[StationPart(key)].longitude)
    ensures forall key :: key in available ==> available[key] == PositionOf(everything[StationPart(key)])
    ensures available == ArcLinkChannels(everything, box)
  {
    var stationsInBounds, channels := SortEntries(everything, box);
    available := EmitChannels(everything, stationsInBounds, channels);
    var expected := ArcLinkChannels(everything, box);
    forall key | key in expected ensures key in available {
      var j :| 0 <= j < |channels| && channels[j] == (StationPart(key), ChannelPart(key));
      HalvesRejoin(key);
    }
    forall key | key in everything && IsChannelKey(key) {
      KeptStationOfChannel(everything, box, key);
    }
    assert available.Keys == expected.Keys;
    SameMaps(available, expected);
  }


  /** Network entries never contribute: replacing one changes nothing in the output. */
  lemma NetworkEntryIgnored(everything: map<string, Entry>, box: Box, key: string, entry: Entry)
    requires IsNetworkKey(key)
    ensures ArcLinkChannels(everything[key := entry], box) == ArcLinkChannels(everything, box)
  {
    var after := ArcLinkChannels(everything[key := entry], box);
    var before := ArcLinkChannels(everything, box);
    forall k
      ensures (k in after <==> k in before) && (k in after ==> after[k] == before[k])
    {
      if IsChannelKey(k) {
        NetworkEntryChannel(everything, box, key, entry, k);
      }
    }
    SameMaps(after, before);
  }

  /** Changing a network entry leaves what one channel key contributes alone. */
  lemma NetworkEntryChannel(everything: map<string, Entry>, box: Box, key: string, entry: Entry, k: string)
    requires IsNetworkKey(key) && IsChannelKey(k)
    ensures var after := ArcLinkChannels(everything[key := entry], box);
      var before := ArcLinkChannels(everything, box);
      (k in after <==> k in before) && (k in after ==> after[k] == before[k])
  {
    StationPartFields(k);
    var station := StationPart(k);
    assert k != key && station != key;
    var changed := everything[key := entry];
    assert (k in changed) == (k in everything);
    assert KeptStation(changed, box, station) == KeptStation(everything, box, station);
  }



  /** A restricted station contributes no channel, wherever it lies. */
  lemma RestrictedStationDropped(everything: map<string, Entry>, box: Box, key: string)
    requires IsChannelKey(key) && StationPart(key) in everything && everything[StationPart(key)].restricted
    ensures key !in ArcLinkChannels(everything, box)
  {
  }
}
