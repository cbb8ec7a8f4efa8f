/**
 * `filter_channel_priority`: for every `net.sta.loc` group of a channel map,
 * keep the channels that match the first priority pattern matching any of
 * the group's channels.
 *
 * The source collects a group's channel codes from every key that merely
 * starts with the group's string (`startswith(location)`, no dot after it).
 * The functions below take a flag `anchored`: `false` is that test as
 * written, `true` is the test with the delimiter (`startswith(location + ".")`).
 * The method models the code as written.
 */
module ChannelPriority {
  import opened Wrappers
  import opened DottedKeys
  import Fnmatch
  import opened Maps

  /** The default `priorities` argument. */
  const DefaultPriorities: seq<string> := ["HH[Z,N,E]", "BH[Z,N,E]", "MH[Z,N,E]", "EH[Z,N,E]", "LH[Z,N,E]"]

  /** `".".join(key.split(".")[:3])`: the `net.sta.loc` group of a key. */
  function LocationOf(key: string): string
  {
    var fields := Split(key);
    if |fields| <= 3 then Join(fields) else Join(fields[..3])
  }

  /** `key.split(".")[-1]`: the channel code of a key. */
  function ChannelOf(key: string): (chan: string)
    ensures Dot !in chan
  {
    var fields := Split(key);
    fields[|fields| - 1]
  }

  /** Everything before the last dot of a key that has one. */
  function Parent(key: string): string
    requires |Split(key)| >= 2
  {
    var fields := Split(key);
    Join(fields[..|fields| - 1])
  }

  /** The test by which a key contributes its channel code to a group. */
  predicate InGroup(key: string, location: string, anchored: bool)
  {
    if anchored then location + [Dot] <= key else location <= key
  }

  /** The keys `"%s.%s" % (location, chan)` rebuilt for some codes of a group. */
  function GroupKeys(location: string, chans: set<string>): set<string>
  {
    set chan | chan in chans :: KeyOf(location, chan)
  }

  /** Rebuilding is one-to-one within a group: a key is rebuilt exactly for its own code. */
  lemma GroupKeysMember(location: string, chans: set<string>, chan: string)
    ensures KeyOf(location, chan) in GroupKeys(location, chans) <==> chan in chans
  {
    if KeyOf(location, chan) in GroupKeys(location, chans) {
      var c :| c in chans && KeyOf(location, c) == KeyOf(location, chan);
      assert c == KeyOf(location, c)[|location| + 1..];
      assert chan == KeyOf(location, chan)[|location| + 1..];
    }
  }

  lemma GroupKeysAdd(location: string, chans: set<string>, chan: string)
    ensures GroupKeys(location, chans + {chan}) == GroupKeys(location, chans) + {KeyOf(location, chan)}
  {
  }

  /** `all_locations`: the groups of the keys. */
  function Locations(keys: set<string>): set<string>
  {
    set key | key in keys :: LocationOf(key)
  }

  /** `chans`: the channel codes collected for one group. */
  function Codes(keys: set<string>, location: string, anchored: bool): (codes: set<string>)
    ensures forall c :: c in codes ==> Dot !in c
  {
    set key | key in keys && InGroup(key, location, anchored) :: ChannelOf(key)
  }

  /** The codes that `fnmatch.fnmatch` accepts for one pattern. */
  function Matching(codes: set<string>, pattern: string): (hits: set<string>)
    ensures hits <= codes
  {
    set c | c in codes && Fnmatch.Match(c, pattern)
  }

  /** `current_channels`: the hits of the first pattern that has any. */
  function FirstMatch(codes: set<string>, priorities: seq<string>): (kept: set<string>)
    ensures kept <= codes
  {
    if |priorities| == 0 then {}
    else
      var hits := Matching(codes, priorities[0]);
      if hits != {} then hits else FirstMatch(codes, priorities[1..])
  }

  /** The key `key` is one that the filter writes: its group's first hits hold its channel code. */
  predicate Selected(keys: set<string>, priorities: seq<string>, anchored: bool, key: string)
  {
    && |Split(key)| >= 2
    && Parent(key) in Locations(keys)
    && ChannelOf(key) in FirstMatch(Codes(keys, Parent(key), anchored), priorities)
  }

  /** Every key the filter writes is present, so the lookup `channels[key]` never fails. */
  predicate Defined(keys: set<string>, priorities: seq<string>, anchored: bool)
  {
    forall location, chan ::
      location in Locations(keys) && chan in FirstMatch(Codes(keys, location, anchored), priorities) ==>
      KeyOf(location, chan) in keys
  }

  /** The filtered map, when every lookup succeeds: it keeps values and invents no key. */
  function Filtered<V>(channels: map<string, V>, priorities: seq<string>, anchored: bool): (r: map<string, V>)
    ensures r.Keys <= channels.Keys
    ensures forall key :: key in r ==> r[key] == channels[key]
  {
    map key | key in channels && Selected(channels.Keys, priorities, anchored, key) :: channels[key]
  }

  /** A group never gets its codes from a key of another group. */
  predicate ExactGroups(keys: set<string>, anchored: bool)
  {
    forall k1, k2 :: k1 in keys && k2 in keys && InGroup(k2, LocationOf(k1), anchored) ==>
      LocationOf(k2) == LocationOf(k1)
  }

  /** Every key has the four fields `net.sta.loc.chan`. */
  predicate WellFormed(keys: set<string>)
  {
    forall key :: key in keys ==> |Split(key)| == 4
  }

  // ---------------------------------------------------------------------------
  // Lines 163-169: the priority walk.

  /**
   * The loops over `priorities` and `chans`: collect the codes matching the
   * current pattern and stop at the first pattern that collected any.
   */
  method SelectChannels(chans: set<string>, priorities: seq<string>) returns (current: set<string>)
    ensures current == FirstMatch(chans, priorities)
  {
    current := {};
    var i := 0;
    while i < |priorities|
      invariant 0 <= i <= |priorities|
      invariant current == {}
      invariant FirstMatch(chans, priorities) == FirstMatch(chans, priorities[i..])
    {
      var pending := chans;
      while pending != {}
        invariant pending <= chans
        invariant current == Matching(chans - pending, priorities[i])
      {
        var chan :| chan in pending;
        if Fnmatch.Match(chan, priorities[i]) {
          current := current + {chan};
        }
        pending := pending - {chan};
      }
      assert current == Matching(chans, priorities[i]);
      if current != {} {
        break;
      }
      assert priorities[i..][1..] == priorities[i + 1..];
      i := i + 1;
    }
  }

  /** The first pattern with a hit decides the group, whatever comes after it. */
  lemma {:induction false} FirstMatchAt(codes: set<string>, priorities: seq<string>, i: nat)
    requires i < |priorities|
    requires forall j :: 0 <= j < i ==> Matching(codes, priorities[j]) == {}
    requires Matching(codes, priorities[i]) != {}
    ensures FirstMatch(codes, priorities) == Matching(codes, priorities[i])
  {
    if i > 0 {
      assert Matching(codes, priorities[0]) == {};
      FirstMatchAt(codes, priorities[1..], i - 1);
    }
  }

  /** A group none of whose codes matches any pattern keeps nothing. */
  lemma {:induction false} FirstMatchNone(codes: set<string>, priorities: seq<string>)
    requires forall j :: 0 <= j < |priorities| ==> Matching(codes, priorities[j]) == {}
    ensures FirstMatch(codes, priorities) == {}
  {
    if |priorities| > 0 {
      assert Matching(codes, priorities[0]) == {};
      FirstMatchNone(codes, priorities[1..]);
    }
  }

  /** Whatever a group keeps is the whole hit set of a pattern that no earlier pattern beats. */
  lemma {:induction false} FirstMatchIsFirstHit(codes: set<string>, priorities: seq<string>)
    requires FirstMatch(codes, priorities) != {}
    ensures exists i :: (0 <= i < |priorities| && FirstMatch(codes, priorities) == Matching(codes, priorities[i])
      && forall j :: 0 <= j < i ==> Matching(codes, priorities[j]) == {})
  {
    if Matching(codes, priorities[0]) != {} {
      assert FirstMatch(codes, priorities) == Matching(codes, priorities[0]);
    } else {
      var rest := priorities[1..];
      FirstMatchIsFirstHit(codes, rest);
      var i :| (0 <= i < |rest| && FirstMatch(codes, rest) == Matching(codes, rest[i])
        && forall j :: 0 <= j < i ==> Matching(codes, rest[j]) == {});
      assert rest[i] == priorities[i + 1];
      forall j | 0 <= j < i + 1 ensures Matching(codes, priorities[j]) == {} {
        if j > 0 {
          assert priorities[j] == rest[j - 1];
        }
      }
    }
  }

  /** When the first pattern hits nothing and the second hits something, the second decides. */
  lemma SecondPatternDecides(codes: set<string>, priorities: seq<string>)
    requires |priorities| >= 2
    requires Matching(codes, priorities[0]) == {} && Matching(codes, priorities[1]) != {}
    ensures FirstMatch(codes, priorities) == Matching(codes, priorities[1])
  {
    FirstMatchAt(codes, priorities, 1);
  }

  /** Selecting again among the selected codes keeps them all. */
  lemma {:induction false} FirstMatchIdempotent(codes: set<string>, priorities: seq<string>)
    ensures FirstMatch(FirstMatch(codes, priorities), priorities) == FirstMatch(codes, priorities)
  {
    if |priorities| > 0 {
      var hits := Matching(codes, priorities[0]);
      if hits != {} {
        assert Matching(hits, priorities[0]) == hits;
      } else {
        var rest := FirstMatch(codes, priorities[1..]);
        assert Matching(rest, priorities[0]) == {} by {
          forall c | c in Matching(rest, priorities[0]) ensures c in hits { }
        }
        FirstMatchIdempotent(codes, priorities[1..]);
      }
    }
  }

  // ---------------------------------------------------------------------------
  // Rebuilding keys from a group and a channel code.

  /** `KeyOf(location, chan)` splits back into `location` and `chan`. */
  lemma KeyOfParts(location: string, chan: string)
    requires Dot !in chan
    ensures |Split(KeyOf(location, chan))| >= 2
    ensures Parent(KeyOf(location, chan)) == location
    ensures ChannelOf(KeyOf(location, chan)) == chan
  {
    var fields := Split(location);
    SplitSnoc(location, chan);
    assert (fields + [chan])[..|fields|] == fields;
    JoinSplit(location);
  }

  /** A key with a dot is its parent, a dot and its channel code. */
  lemma Rebuild(key: string)
    requires |Split(key)| >= 2
    ensures KeyOf(Parent(key), ChannelOf(key)) == key
  {
    var fields := Split(key);
    var n := |fields|;
    assert fields == fields[..n - 1] + [fields[n - 1]];
    JoinAppend(fields[..n - 1], [fields[n - 1]]);
    JoinSplit(key);
  }

  /** A key the filter writes contributes its own code to its own parent group. */
  lemma SelectedInGroup(keys: set<string>, priorities: seq<string>, anchored: bool, key: string)
    requires Selected(keys, priorities, anchored, key)
    ensures KeyOf(Parent(key), ChannelOf(key)) == key
    ensures InGroup(key, Parent(key), anchored)
  {
    Rebuild(key);
    var p := Parent(key);
    assert key == p + [Dot] + ChannelOf(key);
    assert (p + [Dot]) <= key by { assert key[..|p| + 1] == p + [Dot]; }
    assert p <= key by { assert key[..|p|] == p; }
  }

  /** The key rebuilt from a group and one of its first hits is a key the filter writes. */
  lemma SelectedKeyOf(keys: set<string>, priorities: seq<string>, anchored: bool, location: string, chan: string)
    requires location in Locations(keys)
    requires chan in FirstMatch(Codes(keys, location, anchored), priorities)
    ensures Selected(keys, priorities, anchored, KeyOf(location, chan))
  {
    KeyOfParts(location, chan);
  }

  /** A key the filter writes is reached by the loops: its parent group and its code. */
  lemma SelectedIsReached(keys: set<string>, priorities: seq<string>, anchored: bool, key: string)
    requires Selected(keys, priorities, anchored, key)
    ensures Parent(key) in Locations(keys)
    ensures ChannelOf(key) in FirstMatch(Codes(keys, Parent(key), anchored), priorities)
    ensures KeyOf(Parent(key), ChannelOf(key)) == key
  {
    Rebuild(key);
  }

  /**
   * A map that holds exactly the written keys, with the input's values, is
   * the filtered map, and then no lookup fails.
   */
  lemma CompletedFilter<V>(channels: map<string, V>, priorities: seq<string>, anchored: bool, filtered: map<string, V>)
    requires forall key :: key in filtered ==>
      key in channels && filtered[key] == channels[key] && Selected(channels.Keys, priorities, anchored, key)
    requires forall location, chan ::
      location in Locations(channels.Keys) && chan in FirstMatch(Codes(channels.Keys, location, anchored), priorities) ==>
      KeyOf(location, chan) in filtered
    ensures Defined(channels.Keys, priorities, anchored)
    ensures filtered == Filtered(channels, priorities, anchored)
  {
    var keys := channels.Keys;
    var expected := Filtered(channels, priorities, anchored);
    assert filtered.Keys == expected.Keys by {
      forall key | key in expected ensures key in filtered {
        SelectedIsReached(keys, priorities, anchored, key);
      }
    }
    SameMaps(filtered, expected);
  }


  // ---------------------------------------------------------------------------
  // Lines 156-173: the whole filter.

  /**
   * `filter_channel_priority(channels, priorities)` as written. A failure is
   * the `KeyError` of line 172, carrying the key that is not in `channels`.
   */
  method FilterChannelPriority<V>(channels: map<string, V>, priorities: seq<string>)
    returns (r: Result<map<string, V>, string>)
    ensures r.Success? <==> Defined(channels.Keys, priorities, false)
    ensures r.Success? ==> r.value == Filtered(channels, priorities, false)
    ensures r.Failure? ==> r.error !in channels && Selected(channels.Keys, priorities, false, r.error)
  {
    var keys := channels.Keys;
    var filtered: map<string, V> := map[];
    var locations := Locations(keys);
    ghost var done: set<string> := {};
    while locations != {}
      invariant locations + done == Locations(keys) && locations !! done
      invariant forall key :: key in filtered ==>
        key in channels && filtered[key] == channels[key] && Selected(keys, priorities, false, key)
      invariant forall location, chan ::
        location in done && chan in FirstMatch(Codes(keys, location, false), priorities) ==>
        KeyOf(location, chan) in filtered
    {
      var location :| location in locations;
      var written := WriteGroup(channels, priorities, location, filtered);
      if written.Failure? {
        return Failure(written.error);
      }
      filtered := written.value;
      locations := locations - {location};
      done := done + {location};
    }
    CompletedFilter(channels, priorities, false, filtered);
    return Success(filtered);
  }

  /**
   * The body of the outer loop of `filter_channel_priority` for one group:
   * it selects the group's codes and copies each rebuilt key into `filtered`,
   * or fails on the first rebuilt key that is not in `channels`.
   */
  method WriteGroup<V>(channels: map<string, V>, priorities: seq<string>, location: string, filtered: map<string, V>)
    returns (r: Result<map<string, V>, string>)
    requires location in Locations(channels.Keys)
    requires forall key :: key in filtered ==>
      key in channels && filtered[key] == channels[key] && Selected(channels.Keys, priorities, false, key)
    ensures r.Success? ==>
      r.value.Keys == filtered.Keys + GroupKeys(location, FirstMatch(Codes(channels.Keys, location, false), priorities))
    ensures r.Success? ==> forall key :: key in r.value ==>
      key in channels && r.value[key] == channels[key] && Selected(channels.Keys, priorities, false, key)
    ensures r.Success? ==> forall chan :: chan in FirstMatch(Codes(channels.Keys, location, false), priorities) ==>
      KeyOf(location, chan) in r.value
    ensures r.Failure? ==> r.error !in channels && Selected(channels.Keys, priorities, false, r.error)
    ensures r.Failure? ==> exists chan ::
      (chan in FirstMatch(Codes(channels.Keys, location, false), priorities) && r.error == KeyOf(location, chan))
  {
    var keys := channels.Keys;
    var chans := Codes(keys, location, false);
    var current := SelectChannels(chans, priorities);
    r := CopyGroup(channels, location, current, filtered);
    forall chan | chan in current {
      SelectedKeyOf(keys, priorities, false, location, chan);
    }
  }

  /**
   * Lines 170-172: copies `channels[key]` into `filtered` for the key
   * `location.chan` of every code in `current`, or fails with the first such
   * key that `channels` lacks (the `KeyError`).
   */
  method CopyGroup<V>(channels: map<string, V>, location: string, current: set<string>, filtered: map<string, V>)
    returns (r: Result<map<string, V>, string>)
    requires forall key :: key in filtered ==> key in channels && filtered[key] == channels[key]
    ensures r.Success? ==> r.value.Keys == filtered.Keys + GroupKeys(location, current)
    ensures r.Success? ==> forall key :: key in r.value ==> key in channels && r.value[key] == channels[key]
    ensures r.Failure? ==> r.error !in channels && r.error in GroupKeys(location, current)
  {
    var pending := current;
    ghost var done: set<string> := {};
    var written := filtered;
    while pending != {}
      invariant done + pending == current && done !! pending
      invariant written.Keys == filtered.Keys + GroupKeys(location, done)
      invariant forall key :: key in written ==> key in channels && written[key] == channels[key]
    {
      var chan :| chan in pending;
      var key := KeyOf(location, chan);
      if key !in channels {
        return Failure(key);
      }
      written := written[key := channels[key]];
      GroupKeysAdd(location, done, chan);
      pending := pending - {chan};
      done := done + {chan};
    }
    return Success(written);
  }

  // ---------------------------------------------------------------------------
  // Applying the filter twice.

  /** With exact groups, a written key's own group is the group it was written for. */
  lemma SelectedOwnLocation(keys: set<string>, priorities: seq<string>, anchored: bool, key: string)
    requires ExactGroups(keys, anchored)
    requires key in keys && Selected(keys, priorities, anchored, key)
    ensures LocationOf(key) == Parent(key)
  {
    SelectedInGroup(keys, priorities, anchored, key);
    var k0 :| k0 in keys && LocationOf(k0) == Parent(key);
  }

  /** After one pass, a group's codes are exactly the hits the first pass kept for it. */
  lemma FilteredCodes<V>(channels: map<string, V>, priorities: seq<string>, anchored: bool, location: string)
    requires ExactGroups(channels.Keys, anchored) && Defined(channels.Keys, priorities, anchored)
    requires location in Locations(Filtered(channels, priorities, anchored).Keys)
    ensures location in Locations(channels.Keys)
    ensures Codes(Filtered(channels, priorities, anchored).Keys, location, anchored)
         == FirstMatch(Codes(channels.Keys, location, anchored), priorities)
  {
    var kept := Filtered(channels, priorities, anchored).Keys;
    var k1 :| k1 in kept && LocationOf(k1) == location;
    assert location in Locations(channels.Keys);
    FilteredCodesKept(channels, priorities, anchored, location);
    FilteredCodesReached(channels, priorities, anchored, location);
  }

  /** Every code a group collects after one pass was kept for it by that pass. */
  lemma FilteredCodesKept<V>(channels: map<string, V>, priorities: seq<string>, anchored: bool, location: string)
    requires ExactGroups(channels.Keys, anchored)
    requires location in Locations(channels.Keys)
    ensures Codes(Filtered(channels, priorities, anchored).Keys, location, anchored)
         <= FirstMatch(Codes(channels.Keys, location, anchored), priorities)
  {
    var keys := channels.Keys;
    var kept := Filtered(channels, priorities, anchored).Keys;
    var k1 :| k1 in keys && LocationOf(k1) == location;
    forall c | c in Codes(kept, location, anchored)
      ensures c in FirstMatch(Codes(keys, location, anchored), priorities)
    {
      var k2 :| k2 in kept && InGroup(k2, location, anchored) && ChannelOf(k2) == c;
      assert LocationOf(k2) == location;
      SelectedOwnLocation(keys, priorities, anchored, k2);
    }
  }

  /** Every code kept for a group of the input is collected again after the pass. */
  lemma FilteredCodesReached<V>(channels: map<string, V>, priorities: seq<string>, anchored: bool, location: string)
    requires Defined(channels.Keys, priorities, anchored)
    requires location in Locations(channels.Keys)
    ensures FirstMatch(Codes(channels.Keys, location, anchored), priorities)
         <= Codes(Filtered(channels, priorities, anchored).Keys, location, anchored)
  {
    var keys := channels.Keys;
    var kept := Filtered(channels, priorities, anchored).Keys;
    forall c | c in FirstMatch(Codes(keys, location, anchored), priorities)
      ensures c in Codes(kept, location, anchored)
    {
      var key := KeyOf(location, c);
      SelectedKeyOf(keys, priorities, anchored, location, c);
      KeyOfParts(location, c);
      SelectedInGroup(keys, priorities, anchored, key);
      assert key in kept;
    }
  }

  /**
   * When every group is exact and no lookup fails, filtering the result again
   * with the same priorities succeeds and gives the same map.
   */
  lemma FilterIdempotent<V>(channels: map<string, V>, priorities: seq<string>, anchored: bool)
    requires ExactGroups(channels.Keys, anchored)
    requires Defined(channels.Keys, priorities, anchored)
    ensures Defined(Filtered(channels, priorities, anchored).Keys, priorities, anchored)
    ensures Filtered(Filtered(channels, priorities, anchored), priorities, anchored)
         == Filtered(channels, priorities, anchored)
  {
    var keys := channels.Keys;
    var once := Filtered(channels, priorities, anchored);
    var twice := Filtered(once, priorities, anchored);
    forall location, chan |
      location in Locations(once.Keys) && chan in FirstMatch(Codes(once.Keys, location, anchored), priorities)
      ensures KeyOf(location, chan) in once.Keys
    {
      FilteredCodes(channels, priorities, anchored, location);
      FirstMatchIdempotent(Codes(keys, location, anchored), priorities);
      SelectedKeyOf(keys, priorities, anchored, location, chan);
    }
    assert twice.Keys == once.Keys by {
      forall key | key in once ensures key in twice {
        SelectedOwnLocation(keys, priorities, anchored, key);
        FilteredCodes(channels, priorities, anchored, Parent(key));
        FirstMatchIdempotent(Codes(keys, Parent(key), anchored), priorities);
      }
    }
    SameMaps(twice, once);
  }

  /**
   * The filter as written, applied to its own output, returns that output
   * again, provided no group's string is a prefix of a key of another group.
   */
  method FilterTwice<V>(channels: map<string, V>, priorities: seq<string>)
    returns (first: Result<map<string, V>, string>, second: Result<map<string, V>, string>)
    requires ExactGroups(channels.Keys, false)
    ensures first.Success? <==> Defined(channels.Keys, priorities, false)
    ensures first.Success? ==> first.value == Filtered(channels, priorities, false)
    ensures first.Success? ==> second.Success? && second.value == Filtered(first.value, priorities, false)
    ensures first.Success? ==> second == first
  {
    first := FilterChannelPriority(channels, priorities);
    if first.Success? {
      FilterIdempotent(channels, priorities, false);
      second := FilterChannelPriority(first.value, priorities);
    } else {
      second := first;
    }
  }

  // ---------------------------------------------------------------------------
  // The group test with the delimiter.

  /** The group of a four-field key followed by a dot is a prefix of that key. */
  lemma FourFieldKey(key: string)
    requires |Split(key)| == 4
    ensures Parent(key) == LocationOf(key)
    ensures KeyOf(LocationOf(key), ChannelOf(key)) == key
  {
    Rebuild(key);
  }

  /** With `location + "."`, a four-field key is only collected by its own group. */
  lemma WellFormedGroupsExact(keys: set<string>)
    requires WellFormed(keys)
    ensures ExactGroups(keys, true)
  {
    forall k1, k2 | k1 in keys && k2 in keys && InGroup(k2, LocationOf(k1), true)
      ensures LocationOf(k2) == LocationOf(k1)
    {
      var location := LocationOf(k1);
      var head := Split(k1)[..3];
      var rest := k2[|location| + 1..];
      assert k2 == location + [Dot] + rest;
      SplitAround(location, rest);
      SplitJoin(head);
      assert Split(k2)[..3] == head;
    }
  }

  /** With `location + "."` the lookup never fails on four-field keys. */
  lemma WellFormedDefined(keys: set<string>, priorities: seq<string>)
    requires WellFormed(keys)
    ensures Defined(keys, priorities, true)
  {
    WellFormedGroupsExact(keys);
    forall location, chan |
      location in Locations(keys) && chan in FirstMatch(Codes(keys, location, true), priorities)
      ensures KeyOf(location, chan) in keys
    {
      var key :| key in keys && InGroup(key, location, true) && ChannelOf(key) == chan;
      var k0 :| k0 in keys && LocationOf(k0) == location;
      FourFieldKey(key);
    }
  }

  /**
   * The filter with the delimiter in the group test: on four-field keys it
   * never fails, and applying it twice is applying it once.
   */
  lemma AnchoredFilterIdempotent<V>(channels: map<string, V>, priorities: seq<string>)
    requires WellFormed(channels.Keys)
    ensures Defined(channels.Keys, priorities, true)
    ensures Filtered(Filtered(channels, priorities, true), priorities, true) == Filtered(channels, priorities, true)
  {
    WellFormedGroupsExact(channels.Keys);
    WellFormedDefined(channels.Keys, priorities);
    FilterIdempotent(channels, priorities, true);
  }

  /** Where groups are exact, the code as written and the delimited test collect the same codes. */
  lemma ExactCodesAgree(keys: set<string>, location: string)
    requires WellFormed(keys) && ExactGroups(keys, false)
    requires location in Locations(keys)
    ensures Codes(keys, location, false) == Codes(keys, location, true)
  {
    var k0 :| k0 in keys && LocationOf(k0) == location;
    forall key | key in keys && InGroup(key, location, false) ensures InGroup(key, location, true) {
      FourFieldKey(key);
      assert key[..|location| + 1] == location + [Dot];
    }
  }

  /** Where groups are exact, the filter as written never fails and agrees with the delimited one. */
  lemma ExactFilterAgrees<V>(channels: map<string, V>, priorities: seq<string>)
    requires WellFormed(channels.Keys) && ExactGroups(channels.Keys, false)
    ensures Defined(channels.Keys, priorities, false)
    ensures Filtered(channels, priorities, false) == Filtered(channels, priorities, true)
  {
    var keys := channels.Keys;
    WellFormedDefined(keys, priorities);
    forall location | location in Locations(keys)
      ensures Codes(keys, location, false) == Codes(keys, location, true)
    {
      ExactCodesAgree(keys, location);
    }
    var loose := Filtered(channels, priorities, false);
    var strict := Filtered(channels, priorities, true);
    assert loose.Keys == strict.Keys;
    SameMaps(loose, strict);
  }

  /** With four-field keys, a key survives exactly when its code is among its own group's first hits. */
  lemma AnchoredKeeps<V>(channels: map<string, V>, priorities: seq<string>, key: string)
    requires WellFormed(channels.Keys) && key in channels
    ensures key in Filtered(channels, priorities, true) <==>
      ChannelOf(key) in FirstMatch(Codes(channels.Keys, LocationOf(key), true), priorities)
  {
    FourFieldKey(key);
    var location := LocationOf(key);
    assert location in Locations(channels.Keys);
  }

  /** A group none of whose codes matches any pattern writes no key. */
  lemma UnmatchedGroupDropped<V>(channels: map<string, V>, priorities: seq<string>, anchored: bool, location: string)
    requires forall j :: 0 <= j < |priorities| ==> Matching(Codes(channels.Keys, location, anchored), priorities[j]) == {}
    ensures forall key :: key in Filtered(channels, priorities, anchored) ==> Parent(key) != location
  {
    FirstMatchNone(Codes(channels.Keys, location, anchored), priorities);
  }

  // ---------------------------------------------------------------------------
  // Keys built from their four fields, and the default patterns on two codes.

  /** The parts of a key `net.sta.loc.chan` built from four dotless fields. */
  lemma KeyParts(net: string, sta: string, loc: string, chan: string)
    requires Dot !in net && Dot !in sta && Dot !in loc && Dot !in chan
    ensures var location := KeyOf(KeyOf(net, sta), loc);
      var key := DottedKey(net, sta, loc, chan);
      && Split(key) == [net, sta, loc, chan]
      && LocationOf(key) == location
      && ChannelOf(key) == chan
      && key == KeyOf(location, chan)
      && InGroup(key, location, true)
  {
    FourFields(net, sta, loc, chan);
    var location := KeyOf(KeyOf(net, sta), loc);
    var key := DottedKey(net, sta, loc, chan);
    assert [net, sta, loc, chan][..3] == [net, sta, loc];
    assert Join([net, sta, loc]) == location by {
      assert [net, sta, loc][1..] == [sta, loc];
      assert [sta, loc][1..] == [loc];
      assert Join([sta, loc]) == sta + [Dot] + loc;
      assert Join([net, sta, loc]) == net + [Dot] + Join([sta, loc]);
    }
    assert key == (location + [Dot]) + chan;
  }

  lemma DefaultPatternsShape()
    ensures DefaultPriorities[0] == ['H', 'H'] + "[Z,N,E]"
    ensures DefaultPriorities[1] == ['B', 'H'] + "[Z,N,E]"
  {
  }

  /** The codes of `{a, b}` that one pattern hits. */
  lemma MatchingPair(a: string, b: string, pattern: string)
    ensures Matching({a, b}, pattern)
         == (if Fnmatch.Match(a, pattern) then {a} else {}) + (if Fnmatch.Match(b, pattern) then {b} else {})
  {
  }

  /** The three-character codes of `{a, b}` that a component pattern such as `BH[Z,N,E]` hits. */
  lemma ComponentHits(band: char, instrument: char, a: string, b: string)
    requires !Fnmatch.IsSpecial(band) && !Fnmatch.IsSpecial(instrument)
    requires |a| == 3 && |b| == 3
    ensures Matching({a, b}, [band, instrument] + "[Z,N,E]")
         == (if a[0] == band && a[1] == instrument && a[2] in "Z,NE" then {a} else {})
          + (if b[0] == band && b[1] == instrument && b[2] in "Z,NE" then {b} else {})
  {
    Fnmatch.ComponentPattern(band, instrument, a);
    Fnmatch.ComponentPattern(band, instrument, b);
    MatchingPair(a, b, [band, instrument] + "[Z,N,E]");
  }

  /** Of an `HHZ` and a `BHZ` code, the default priorities keep the `HHZ` one. */
  lemma FirstBandWins(high: string, low: string)
    requires |high| == 3 && high[0] == 'H' && high[1] == 'H' && high[2] == 'Z'
    requires |low| == 3 && low[0] == 'B' && low[1] == 'H' && low[2] == 'Z'
    ensures FirstMatch({high, low}, DefaultPriorities) == {high}
  {
    DefaultPatternsShape();
    ComponentHits('H', 'H', high, low);
    FirstMatchAt({high, low}, DefaultPriorities, 0);
  }

  /** Of an `LHZ` and a `BHZ` code, the default priorities keep the `BHZ` one. */
  lemma SecondBandWins(low: string, high: string)
    requires |low| == 3 && low[0] == 'L' && low[1] == 'H' && low[2] == 'Z'
    requires |high| == 3 && high[0] == 'B' && high[1] == 'H' && high[2] == 'Z'
    ensures FirstMatch({low, high}, DefaultPriorities) == {high}
  {
    DefaultPatternsShape();
    var codes := {low, high};
    assert Matching(codes, DefaultPriorities[0]) == {} by {
      ComponentHits('H', 'H', low, high);
    }
    assert Matching(codes, DefaultPriorities[1]) == {high} by {
      ComponentHits('B', 'H', low, high);
    }
    SecondPatternDecides(codes, DefaultPriorities);
  }

  /** The codes a group collects from a two-key map. */
  lemma CodesOfPair(k1: string, k2: string, location: string, anchored: bool)
    ensures Codes({k1, k2}, location, anchored)
         == (if InGroup(k1, location, anchored) then {ChannelOf(k1)} else {})
          + (if InGroup(k2, location, anchored) then {ChannelOf(k2)} else {})
  {
  }

  // ---------------------------------------------------------------------------
  // Two channels of one group: the earlier pattern wins.

  /** `XX.AAA..HHZ` and `XX.AAA..BHZ` filter to the `HHZ` channel alone. */
  lemma HighRateChannelWins()
    ensures Defined({"XX.AAA..HHZ", "XX.AAA..BHZ"}, DefaultPriorities, false)
    ensures Filtered(map["XX.AAA..HHZ" := 1, "XX.AAA..BHZ" := 2], DefaultPriorities, false).Keys
         == {"XX.AAA..HHZ"}
  {
    assert "XX.AAA..HHZ" == DottedKey("XX", "AAA", "", "HHZ");
    assert "XX.AAA..BHZ" == DottedKey("XX", "AAA", "", "BHZ");
    SameGroupPair("XX", "AAA", "", "HHZ", "BHZ", 1, 2);
  }

  /** An `HHZ` and a `BHZ` channel of one group: only the `HHZ` key survives. */
  lemma SameGroupPair<V>(net: string, sta: string, loc: string, high: string, low: string, vh: V, vl: V)
    requires Dot !in net && Dot !in sta && Dot !in loc
    requires |high| == 3 && high[0] == 'H' && high[1] == 'H' && high[2] == 'Z'
    requires |low| == 3 && low[0] == 'B' && low[1] == 'H' && low[2] == 'Z'
    ensures var kh := DottedKey(net, sta, loc, high);
      var kl := DottedKey(net, sta, loc, low);
      && Defined({kh, kl}, DefaultPriorities, false)
      && Filtered(map[kh := vh, kl := vl], DefaultPriorities, false).Keys == {kh}
  {
    assert Dot !in high && Dot !in low;
    KeyParts(net, sta, loc, high);
    KeyParts(net, sta, loc, low);
    FirstBandWins(high, low);
    var kh := DottedKey(net, sta, loc, high);
    var kl := DottedKey(net, sta, loc, low);
    PairKeepsFirst(kh, kl, vh, vl, DefaultPriorities, KeyOf(KeyOf(net, sta), loc));
  }

  /** Two keys of one group whose codes' first hits are the first key's code alone. */
  lemma PairKeepsFirst<V>(high: string, low: string, vh: V, vl: V, priorities: seq<string>, location: string)
    requires |Split(high)| == 4 && LocationOf(high) == location && InGroup(high, location, true)
    requires |Split(low)| == 4 && LocationOf(low) == location && InGroup(low, location, true)
    requires ChannelOf(high) != ChannelOf(low)
    requires FirstMatch({ChannelOf(high), ChannelOf(low)}, priorities) == {ChannelOf(high)}
    ensures Defined({high, low}, priorities, false)
    ensures Filtered(map[high := vh, low := vl], priorities, false).Keys == {high}
  {
    var channels := map[high := vh, low := vl];
    assert channels.Keys == {high, low};
    var codes := Codes(channels.Keys, location, true);
    assert codes == {ChannelOf(high), ChannelOf(low)} by {
      CodesOfPair(high, low, location, true);
    }
    OneGroup(channels, priorities, location);
    GroupMember(channels, priorities, location, high);
    GroupMember(channels, priorities, location, low);
    var filtered := Filtered(channels, priorities, false);
    KeptKeys(filtered.Keys, high, low);
  }

  /** A subset of `{high, low}` that holds `high` and not `low`. */
  lemma KeptKeys(keys: set<string>, high: string, low: string)
    requires keys <= {high, low} && high in keys && low !in keys
    ensures keys == {high}
  {
  }

  /**
   * A map of four-field keys of one group: the filter, as written, keeps the
   * keys whose codes are the group's first hits.
   */
  lemma OneGroup<V>(channels: map<string, V>, priorities: seq<string>, location: string)
    requires forall key :: key in channels ==> |Split(key)| == 4 && LocationOf(key) == location
    ensures Defined(channels.Keys, priorities, false)
    ensures forall key :: key in Filtered(channels, priorities, false) <==>
      key in channels && ChannelOf(key) in FirstMatch(Codes(channels.Keys, location, true), priorities)
  {
    assert WellFormed(channels.Keys);
    assert ExactGroups(channels.Keys, false);
    ExactFilterAgrees(channels, priorities);
    forall key | key in channels
      ensures key in Filtered(channels, priorities, true) <==>
        ChannelOf(key) in FirstMatch(Codes(channels.Keys, location, true), priorities)
    {
      AnchoredKeeps(channels, priorities, key);
    }
  }

  /** One key of a map of four-field keys of one group: kept exactly when its code is a first hit. */
  lemma GroupMember<V>(channels: map<string, V>, priorities: seq<string>, location: string, key: string)
    requires forall key :: key in channels ==> |Split(key)| == 4 && LocationOf(key) == location
    requires key in channels
    ensures key in Filtered(channels, priorities, false) <==>
      ChannelOf(key) in FirstMatch(Codes(channels.Keys, location, true), priorities)
  {
    OneGroup(channels, priorities, location);
  }

  // ---------------------------------------------------------------------------
  // A station with an empty location code next to a `00` location.

  /**
   * The group `IU.ANMO.` (empty location) also collects `BHZ` from the key
   * `IU.ANMO.00.BHZ`, because that key starts with `IU.ANMO.`. With the default
   * priorities it keeps `BHZ` over `LHZ` and then looks up `IU.ANMO..BHZ`,
   * which is missing: the code as written fails, the delimited test does not.
   */
  lemma EmptyLocationLooksUpMissingKey()
    ensures !Defined({"IU.ANMO..LHZ", "IU.ANMO.00.BHZ"}, DefaultPriorities, false)
    ensures Defined({"IU.ANMO..LHZ", "IU.ANMO.00.BHZ"}, DefaultPriorities, true)
  {
    assert "IU.ANMO..LHZ" == DottedKey("IU", "ANMO", "", "LHZ");
    assert "IU.ANMO.00.BHZ" == DottedKey("IU", "ANMO", "00", "BHZ");
    EmptyGroupUndefined("IU", "ANMO", "00", "LHZ", "BHZ");
    PairDefinedAnchored("IU", "ANMO", "", "LHZ", "00", "BHZ", DefaultPriorities);
  }

  /** Two keys built from dotless fields: with the delimited test no lookup fails, whatever the priorities. */
  lemma PairDefinedAnchored(net: string, sta: string, loc1: string, chan1: string, loc2: string, chan2: string,
                            priorities: seq<string>)
    requires Dot !in net && Dot !in sta && Dot !in loc1 && Dot !in chan1 && Dot !in loc2 && Dot !in chan2
    ensures var k1 := DottedKey(net, sta, loc1, chan1);
      var k2 := DottedKey(net, sta, loc2, chan2);
      Defined({k1, k2}, priorities, true)
  {
    var k1 := DottedKey(net, sta, loc1, chan1);
    var k2 := DottedKey(net, sta, loc2, chan2);
    assert WellFormed({k1, k2}) by {
      KeyParts(net, sta, loc1, chan1);
      KeyParts(net, sta, loc2, chan2);
    }
    WellFormedDefined({k1, k2}, priorities);
  }

  /**
   * A station with an empty location code and a non-empty one: when the
   * default priorities prefer the other location's code, the empty-location
   * group looks up a key that does not exist.
   */
  lemma EmptyGroupUndefined(net: string, sta: string, loc: string, low: string, high: string)
    requires Dot !in net && Dot !in sta && Dot !in loc && loc != []
    requires |low| == 3 && low[0] == 'L' && low[1] == 'H' && low[2] == 'Z'
    requires |high| == 3 && high[0] == 'B' && high[1] == 'H' && high[2] == 'Z'
    ensures var k1 := DottedKey(net, sta, "", low);
      var k2 := DottedKey(net, sta, loc, high);
      !Defined({k1, k2}, DefaultPriorities, false)
  {
    var k1 := DottedKey(net, sta, "", low);
    var k2 := DottedKey(net, sta, loc, high);
    var location := KeyOf(KeyOf(net, sta), "");
    assert location in Locations({k1, k2}) by {
      KeyParts(net, sta, "", low);
    }
    assert high in FirstMatch(Codes({k1, k2}, location, false), DefaultPriorities) by {
      EmptyGroupCodes(net, sta, loc, low, high);
      SecondBandWins(low, high);
    }
    EmptyGroupMissingKey(net, sta, loc, low, high);
  }

  /** The empty-location group `net.sta.` collects the codes of both keys. */
  lemma EmptyGroupCodes(net: string, sta: string, loc: string, low: string, high: string)
    requires Dot !in net && Dot !in sta && Dot !in loc && Dot !in low && Dot !in high
    ensures var k1 := DottedKey(net, sta, "", low);
      var k2 := DottedKey(net, sta, loc, high);
      Codes({k1, k2}, KeyOf(KeyOf(net, sta), ""), false) == {low, high}
  {
    var k1 := DottedKey(net, sta, "", low);
    var k2 := DottedKey(net, sta, loc, high);
    var location := KeyOf(KeyOf(net, sta), "");
    KeyParts(net, sta, "", low);
    KeyParts(net, sta, loc, high);
    assert InGroup(k1, location, false) by {
      assert k1 == location + ([Dot] + low);
    }
    assert InGroup(k2, location, false) by {
      assert k2 == location + (loc + [Dot] + high);
    }
    CodesOfPair(k1, k2, location, false);
  }

  /** The key `net.sta..high` that the empty-location group looks up is neither key. */
  lemma EmptyGroupMissingKey(net: string, sta: string, loc: string, low: string, high: string)
    requires Dot !in net && Dot !in sta && Dot !in loc && Dot !in low && Dot !in high
    requires loc != [] && low != high
    ensures var k1 := DottedKey(net, sta, "", low);
      var k2 := DottedKey(net, sta, loc, high);
      KeyOf(KeyOf(KeyOf(net, sta), ""), high) !in {k1, k2}
  {
    var k1 := DottedKey(net, sta, "", low);
    var k2 := DottedKey(net, sta, loc, high);
    var missing := KeyOf(KeyOf(KeyOf(net, sta), ""), high);
    KeyParts(net, sta, "", low);
    KeyParts(net, sta, loc, high);
    KeyParts(net, sta, "", high);
    assert Split(missing)[3] != Split(k1)[3];
    assert Split(missing)[2] != Split(k2)[2];
  }
}
