# obspyDMT channel availability, modelled in Dafny

obspyDMT finds the seismic channels that a download can ask for. `availability.py` holds
two parts. `get_availability` does this in three steps:

- it asks the ArcLink service and the IRIS web service which stations and channels exist;
- it keeps, from ArcLink, the channels of unrestricted stations inside a latitude/longitude
  box, and, from IRIS, the channels of stations inside the box that have one recorded
  extent covering the whole requested time window (IRIS has no restriction test);
- it merges the two answers into one map, which it returns unfiltered.

`filter_channel_priority` is a separate function, which `get_availability` does not call.
It narrows a channel map to one family of channels per `net.sta.loc` location group,
chosen by a list of `fnmatch` patterns in priority order.

The channels are keyed by dotted identifiers `net.sta.loc.chan`. This project models all of
that over abstract inputs. Each remote service's answer is a value: a map of ArcLink
entries, or a sequence of already-parsed IRIS station records. Either one may instead be a
`Failure`.

Modules, one per file:

- `DottedKeys` (`dotted_keys.dfy`): Python's `str.split(".")` and `".".join`, with their
  round trips. An empty location code gives `N.S..C`, which has four fields, the third one
  empty.
- `Fnmatch` (`fnmatch.dfy`): `fnmatch.fnmatch` on whole strings. It translates a pattern to
  tokens the way `fnmatch.translate` does: `*`, `?`, `[seq]`, `[!seq]`, and `a-z` ranges
  inside brackets. An unclosed `[` is a literal, and a `]` right after `[` or `[!` is a
  member.
- `Geo` (`geo.dfy`): the closed latitude/longitude box.
- `ChannelPriority` (`channel_priority.dfy`): `filter_channel_priority`, modelled in two
  layers:
  - a method with the source's nested loops, which models the code as written;
  - specification functions that take a flag `anchored`. With `false`, a group collects
    codes by a bare `startswith(location)`, as the source does. With `true`, it uses
    `startswith(location + ".")`.
- `ArcLink` (`arclink.dfy`): the two loops of `_get_arclink_availability`. The first sorts
  entries into networks, buffered channels and in-box stations. The second emits the
  buffered channels of kept stations.
- `Iris` (`iris.dfy`): the four nested loops of `_get_iris_availability`, over stations,
  channels, time spans and extents.
- `Availability` (`availability.dfy`): `get_availability`, which applies IRIS and then
  ArcLink with `dict.update`, and records a diagnostic for each source that failed.
- `Wrappers` and `Maps`: a `Result` type, and a lemma for map equality.

The `KeyError` that `filter_channel_priority` can raise at line 172 is part of the model.
`ChannelPriority.FilterChannelPriority` returns `Failure(key)` with the key it looked up
and did not find (see "## Findings").

## Model

| member | source | states |
|---|---|---|
| DottedKeys.Split | obspyDMT/availability.py:51 | `key.split(".")` always has at least one field and no field holds a dot |
| DottedKeys.Join | obspyDMT/availability.py:57 | `".".join(fields)`: the fields with one dot between each two neighbours, defined by recursion on the fields; its partners are JoinSplit and SplitJoin |
| DottedKeys.KeyOf | obspyDMT/availability.py:171 | `"%s.%s" % (a, b)`: `a` and `b` with one dot between them |
| DottedKeys.DottedKey | obspyDMT/availability.py:129-130 | the key `net.sta.loc.chan` written from its four fields, as `KeyOf` applied three times |
| DottedKeys.JoinSplit | obspyDMT/availability.py:57 | joining the fields of a key with dots gives the key back |
| DottedKeys.SplitJoin | obspyDMT/availability.py:157 | for any non-empty sequence of fields none of which holds a dot, empty fields included, splitting their dot-join gives the same fields back |
| DottedKeys.SplitCount | obspyDMT/availability.py:51-56 | a key has one field more than it has dots, so the one-field and four-field tests count dots |
| DottedKeys.SplitAround | obspyDMT/availability.py:57 | splitting `a.b` gives the fields of `a` followed by the fields of `b` |
| DottedKeys.SplitField | obspyDMT/availability.py:157 | splitting `head.rest` with a dotless `head` gives `head` followed by the fields of `rest` |
| DottedKeys.FourFields | obspyDMT/availability.py:157-161 | a key written from four dotless fields splits back into exactly those four fields, whichever of them are empty |
| DottedKeys.EmptyLocationHasFourFields | obspyDMT/availability.py:146-147 | `net.sta..chan` splits into four fields with an empty location field |
| Fnmatch.PlainPatternMatchesItself | obspyDMT/availability.py:166 | a pattern without `*`, `?` or `[` matches exactly the name equal to it |
| Fnmatch.StarMatchesEverything | obspyDMT/availability.py:166 | the pattern `*` matches every channel code |
| Fnmatch.QuestionMarkMatchesOneCharacter | obspyDMT/availability.py:166 | `?` matches exactly the one-character names |
| Fnmatch.MatchLength | obspyDMT/availability.py:166 | a match against tokens with no `*` consumes exactly one character per token |
| Fnmatch.NegatedBracket | obspyDMT/availability.py:166 | `[!seq]` matches exactly the single characters that `[seq]` rejects |
| Fnmatch.BracketEnd | obspyDMT/availability.py:166 | after `[`, an optional `!` and then an optional `]` belong to the set, and the set ends at the first `]` after them. When no `]` comes after them the result is the pattern's length, which makes the `[` a literal. A closing `]` is never earlier than index 2 |
| Fnmatch.CloseFrom | obspyDMT/availability.py:166 | the search for a closing bracket stops at the first `]` from its start position, or at the end of the pattern |
| Fnmatch.Members | obspyDMT/availability.py:166 | the members of a bracket body as the regular-expression engine reads them: `x-y` is a range, any other character is a single member; the list is never longer than the body |
| Fnmatch.HasMember | obspyDMT/availability.py:166 | a character belongs to a single member when it is that character, and to an `x-y` range when it lies between the two ends, ends included |
| Fnmatch.InBracket | obspyDMT/availability.py:166 | a character is in a bracket expression when some member of it holds the character |
| Fnmatch.Translate | obspyDMT/availability.py:166 | `fnmatch.translate` as tokens: `*`, `?`, a closed bracket expression (negated on a leading `!`), and every other character, an unclosed `[` included, as a literal. It gives at most one token per pattern character, and no token only for the empty pattern |
| Fnmatch.MatchTokens | obspyDMT/availability.py:166 | the regular expression's whole-string match: `*` takes any run, `?` any one character, a literal itself, and a bracket one character that is a member, or, when negated, one that is not |
| Fnmatch.Match | obspyDMT/availability.py:166 | `fnmatch.fnmatch(name, pattern)`, case-sensitive: the name matches the translated pattern as a whole |
| Fnmatch.LeadingCloseIsMember | obspyDMT/availability.py:166 | a `]` right after `[` or `[!` is a member: `[]]` and `[!]]` each translate to one bracket over `]`, plain and negated |
| Fnmatch.UnclosedBracketIsLiteral | obspyDMT/availability.py:166 | a `[` with no `]` after its optional `!` and optional leading `]` (so `[]`, `[!]` and `[!]x` too) translates to a literal `[` followed by the translation of the rest |
| Fnmatch.TranslatePlainBracket | obspyDMT/availability.py:166 | `[seq]`, with `seq` non-empty, free of `]` and not starting with `!`, translates to one bracket token over the members of `seq` |
| Fnmatch.TranslateNegatedBracket | obspyDMT/availability.py:166 | `[!seq]`, with `seq` non-empty and free of `]`, translates to one negated bracket token over the members of `seq` |
| Fnmatch.WholeBracket | obspyDMT/availability.py:166 | a pattern that is a single closed bracket expression translates to one bracket token, negated exactly when its body starts with `!` |
| Fnmatch.MatchBracket | obspyDMT/availability.py:166 | one bracket token matches exactly the one-character names whose character is a member, or, when negated, is not |
| Fnmatch.PlainMembers | obspyDMT/availability.py:166 | for every bracket body without `-`, a character is a member exactly when it occurs in the body |
| Fnmatch.RangeMembers | obspyDMT/availability.py:166 | the body `lo-hi` holds exactly the characters from `lo` to `hi`, both ends included |
| Fnmatch.PlainBracketMatches | obspyDMT/availability.py:166 | for every non-empty body free of `]` and `-` and not starting with `!`, `[seq]` matches exactly the one-character names whose character occurs in `seq` |
| Fnmatch.BracketOfComponents | obspyDMT/availability.py:135-136 | the members of `[Z,N,E]` are exactly `Z`, `,`, `N` and `E` |
| Fnmatch.MatchTwoLiteralsAndBracket | obspyDMT/availability.py:135-136 | two literals and a bracket match exactly the three-character names with those two leading characters and a member as the third |
| Fnmatch.TranslateComponents | obspyDMT/availability.py:135-136 | `[Z,N,E]` is one bracket expression whose members include the comma |
| Fnmatch.ComponentPattern | obspyDMT/availability.py:135-136 | a default pattern such as `HH[Z,N,E]` matches exactly the three-character codes with that band and instrument whose component is `Z`, `,`, `N` or `E` |
| ChannelPriority.ChannelOf | obspyDMT/availability.py:161 | the code taken from a key is its last field and holds no dot |
| ChannelPriority.LocationOf | obspyDMT/availability.py:157 | `".".join(key.split(".")[:3])`: the first three fields of a key joined by dots, or the whole key when it has fewer |
| ChannelPriority.Parent | obspyDMT/availability.py:171 | everything before the last dot of a key with at least two fields: the `location` that `"%s.%s" % (location, chan)` was built from; it is `net.sta.loc` only for a four-field key |
| ChannelPriority.GroupKeys | obspyDMT/availability.py:171 | definition: the set of keys `"%s.%s" % (location, chan)` rebuilt for a set of codes, one per code (its property is GroupKeysMember) |
| ChannelPriority.GroupKeysMember | obspyDMT/availability.py:171 | rebuilding `"%s.%s" % (location, chan)` is one-to-one within a group: the key of a code is among the rebuilt keys of a code set exactly when the code is in the set |
| ChannelPriority.Locations | obspyDMT/availability.py:157-158 | `all_locations`: the set of the groups of all input keys |
| ChannelPriority.InGroup | obspyDMT/availability.py:161-162 | as written (`anchored` false) a key belongs to a group when it starts with the group's string; with `anchored` it must start with the string and a dot |
| ChannelPriority.ExactGroups | obspyDMT/availability.py:157-162 | the assumption under which filtering is idempotent: whenever a key passes the group test of another key's group, the two keys have the same group, so no group string is a bare prefix of a key of another group |
| ChannelPriority.WellFormed | obspyDMT/availability.py:145-146 | every key has the four fields `net.sta.loc.chan`, as the documented input form asks |
| ChannelPriority.Selected | obspyDMT/availability.py:170-172 | a key the filter writes: it has a parent that is a group of the input, and its code is among the codes that group keeps |
| ChannelPriority.Defined | obspyDMT/availability.py:170-172 | no lookup at line 172 fails: for every group and every code it keeps, the rebuilt key is an input key |
| ChannelPriority.Codes | obspyDMT/availability.py:161-162 | the codes a group collects are dotless |
| ChannelPriority.CodesOfPair | obspyDMT/availability.py:161-162 | the codes a group collects from two keys are the codes of those of the two keys that start with the group's string |
| ChannelPriority.FirstMatch | obspyDMT/availability.py:164-169 | the codes a group keeps are among its codes |
| ChannelPriority.Matching | obspyDMT/availability.py:165-167 | the codes a pattern collects are among the group's codes |
| ChannelPriority.MatchingPair | obspyDMT/availability.py:165-167 | a pattern collects from two codes exactly those of them it matches |
| ChannelPriority.DefaultPatternsShape | obspyDMT/availability.py:135-136 | the first two default patterns are `HH[Z,N,E]` and `BH[Z,N,E]` |
| ChannelPriority.ComponentHits | obspyDMT/availability.py:165-167 | a default-shaped pattern collects from two three-character codes exactly those with its band and instrument and a component among `Z`, `,`, `N` and `E` |
| ChannelPriority.FirstBandWins | obspyDMT/availability.py:164-169 | from `HHZ` and `BHZ` the default priorities keep only `HHZ` |
| ChannelPriority.SecondBandWins | obspyDMT/availability.py:164-169 | from `LHZ` and `BHZ` the default priorities keep only `BHZ`: the first pattern hits nothing and the second hits `BHZ` |
| ChannelPriority.Filtered | obspyDMT/availability.py:170-172 | the filtered map invents no key and keeps every value it copies |
| ChannelPriority.SelectChannels | obspyDMT/availability.py:163-169 | the priority walk with its `break` keeps exactly the hits of the first pattern that has any |
| ChannelPriority.FirstMatchAt | obspyDMT/availability.py:164-169 | if no pattern before pattern `i` hits and pattern `i` does, the group keeps exactly the hits of pattern `i` |
| ChannelPriority.FirstMatchIsFirstHit | obspyDMT/availability.py:164-169 | whatever a group keeps is the whole hit set of some pattern, and no earlier pattern hits any of the group's codes |
| ChannelPriority.FirstMatchNone | obspyDMT/availability.py:163-169 | a group whose codes match no pattern keeps no code |
| ChannelPriority.UnmatchedGroupDropped | obspyDMT/availability.py:163-172 | a group whose codes match no pattern writes no key into the result |
| ChannelPriority.FirstMatchIdempotent | obspyDMT/availability.py:164-169 | running the priority walk again on the kept codes keeps the same codes |
| ChannelPriority.KeyOfParts | obspyDMT/availability.py:171 | the key `location.chan` splits back into its group and its code |
| ChannelPriority.Rebuild | obspyDMT/availability.py:157-171 | a key with at least two fields is its parent joined to its code by a dot. The parent is everything before the last dot, which is the `net.sta.loc` prefix only for a four-field key |
| ChannelPriority.SelectedInGroup | obspyDMT/availability.py:161-171 | a key the filter writes starts with the string of the group it was written for |
| ChannelPriority.SelectedKeyOf | obspyDMT/availability.py:170-171 | the key rebuilt from a group of the input and one of its kept codes is a key the filter writes |
| ChannelPriority.SelectedIsReached | obspyDMT/availability.py:157-171 | every key the filter writes is `group.code`, for a group of the input and a code kept for that group |
| ChannelPriority.CompletedFilter | obspyDMT/availability.py:170-172 | a map holding exactly the written keys, with the input's values, is the filtered map, and every lookup succeeded |
| ChannelPriority.FilterChannelPriority | obspyDMT/availability.py:156-173 | the method succeeds exactly when every key it writes exists in the input. It then returns the filtered map. Otherwise it fails with a written key that is missing from the input, which is the `KeyError` of line 172 |
| ChannelPriority.WriteGroup | obspyDMT/availability.py:160-172 | one pass of the outer loop either adds exactly the rebuilt keys of its group's kept codes to what was written before, each with the input's value, and nothing else, or fails with a rebuilt key of that group that is missing from the input |
| ChannelPriority.CopyGroup | obspyDMT/availability.py:170-172 | the copy loop either adds exactly the rebuilt keys `location.chan` of the given codes to what was written before, each with the input's value, and nothing else, or fails with one of those keys that is missing from the input (the `KeyError`) |
| ChannelPriority.FilterIdempotent | obspyDMT/availability.py:157-172 | when no group collects codes from a key of another group and every lookup succeeds, the filtered map filters again without a missing key, and filtering it again changes nothing |
| ChannelPriority.SelectedOwnLocation | obspyDMT/availability.py:157-172 | when no group collects codes from another group's keys, a written input key belongs to the group it was written for |
| ChannelPriority.FilteredCodes | obspyDMT/availability.py:157-172 | with exact groups and no failed lookup, every group of the filtered map is a group of the input, and its codes there are exactly the codes the first pass kept for it |
| ChannelPriority.FilteredCodesKept | obspyDMT/availability.py:161-172 | with exact groups, every code a group collects from the filtered map was kept for that group |
| ChannelPriority.FilteredCodesReached | obspyDMT/availability.py:161-172 | when no lookup fails, every code kept for a group is collected by that group again from the filtered map |
| ChannelPriority.FilterTwice | obspyDMT/availability.py:156-173 | when no group collects codes from another group's keys: the first call succeeds exactly when no lookup fails and then returns Filtered; on success the second call, on that output, also succeeds and returns the same map |
| ChannelPriority.WellFormedGroupsExact | obspyDMT/availability.py:157-162 | with four-field keys and the delimited test, no group collects codes from another group |
| ChannelPriority.WellFormedDefined | obspyDMT/availability.py:170-172 | with four-field keys and the delimited test, every lookup succeeds |
| ChannelPriority.FourFieldKey | obspyDMT/availability.py:157-171 | a four-field key's parent is its `net.sta.loc` prefix, and that prefix joined to its code is the key |
| ChannelPriority.ExactCodesAgree | obspyDMT/availability.py:161-162 | with four-field keys and no group collecting from another group's keys, the bare and the delimited tests collect the same codes |
| ChannelPriority.AnchoredFilterIdempotent | obspyDMT/availability.py:157-172 | with four-field keys and the delimited test, the filter is idempotent unconditionally |
| ChannelPriority.ExactFilterAgrees | obspyDMT/availability.py:161-172 | for four-field keys where no group's string is a prefix of another group's key, no lookup fails, and the code as written and the delimited test filter identically |
| ChannelPriority.AnchoredKeeps | obspyDMT/availability.py:160-172 | with four-field keys, a key survives exactly when its code is among the codes its own group keeps |
| ChannelPriority.OneGroup | obspyDMT/availability.py:160-172 | for a map whose keys all have four fields and belong to one group, no lookup fails, and a key survives exactly when its code is among the group's kept codes |
| ChannelPriority.GroupMember | obspyDMT/availability.py:160-172 | in a map whose keys all have four fields and belong to one group, a given key survives exactly when its code is among the group's kept codes |
| ChannelPriority.KeyParts | obspyDMT/availability.py:157-171 | a key written from four dotless fields has those fields, its group is `net.sta.loc`, its code is the last field, it is rebuilt from the two, and it passes the delimited test of its group |
| ChannelPriority.PairKeepsFirst | obspyDMT/availability.py:163-172 | two four-field keys of one group, where only the first key's code is kept: no lookup fails and the result holds the first key alone |
| ChannelPriority.HighRateChannelWins | obspyDMT/availability.py:135-172 | with the default priorities, `XX.AAA..HHZ` and `XX.AAA..BHZ` filter to `XX.AAA..HHZ` alone, although `BHZ` matches a later pattern |
| ChannelPriority.SameGroupPair | obspyDMT/availability.py:135-172 | for any station and location with dotless codes, an `HHZ` key and a `BHZ` key filter to the `HHZ` key alone, and no lookup fails |
| ChannelPriority.EmptyLocationLooksUpMissingKey | obspyDMT/availability.py:161-172 | `IU.ANMO..LHZ` and `IU.ANMO.00.BHZ` make the code as written look up a missing key, while the delimited test does not |
| ChannelPriority.EmptyGroupUndefined | obspyDMT/availability.py:161-172 | for any station with an empty location holding `LHZ` and a non-empty location holding `BHZ`, the code as written looks up a missing key |
| ChannelPriority.EmptyGroupCodes | obspyDMT/availability.py:161-162 | the empty-location group `net.sta.` collects the codes of both its own key and the other location's key |
| ChannelPriority.EmptyGroupMissingKey | obspyDMT/availability.py:171-172 | the key `net.sta..BHZ` that such a group rebuilds is neither of the input keys |
| ChannelPriority.PairDefinedAnchored | obspyDMT/availability.py:170-172 | for two keys written from dotless fields of one station and any priority list, the delimited test never looks up a missing key |
| ArcLink.StationPartFields | obspyDMT/availability.py:57 | the `net.sta` half of a four-field key has two fields |
| ArcLink.StationPart | obspyDMT/availability.py:57 | `".".join(split_key[:2])`: the `net.sta` half of a four-field key |
| ArcLink.IsNetworkKey | obspyDMT/availability.py:53 | a key that splits into one field, a network entry |
| ArcLink.IsChannelKey | obspyDMT/availability.py:56 | a key that splits into four fields, a channel entry |
| ArcLink.Buffered | obspyDMT/availability.py:57 | every buffered pair comes from a four-field input key and is exactly its `net.sta` and `loc.chan` halves |
| ArcLink.ChannelPart | obspyDMT/availability.py:57 | `".".join(split_key[2:])`: the `loc.chan` half of a four-field key |
| ArcLink.Rejoin | obspyDMT/availability.py:74 | `"%s.%s" % (network_station, loc_channel)`: a buffered pair joined by a dot |
| ArcLink.KeptStation | obspyDMT/availability.py:59-68 | an entry kept as a station: neither a one-field nor a four-field key, not restricted, and inside the closed box |
| ArcLink.HalvesRejoin | obspyDMT/availability.py:57-75 | the buffered pair `(net.sta, loc.chan)` rejoins to the original key |
| ArcLink.ArcLinkChannels | obspyDMT/availability.py:72-76 | every emitted key is a four-field key of the input, and its position lies in the box |
| ArcLink.SortEntries | obspyDMT/availability.py:46-69 | the first loop keeps exactly the unrestricted station entries in the closed box, with their coordinates. It buffers the two halves of every four-field key, and buffers only such halves |
| ArcLink.EmitChannels | obspyDMT/availability.py:72-75 | the second loop emits a key exactly when it is the rejoined form of a buffered pair whose station was kept; every emitted key is a four-field input key and carries its station's coordinates |
| ArcLink.KeptStationOfChannel | obspyDMT/availability.py:50-69 | the station of a four-field key is kept exactly when it is an unrestricted entry inside the box |
| ArcLink.ArcLinkAvailability | obspyDMT/availability.py:46-76 | a key is emitted exactly when it is a four-field key whose `net.sta` entry is an unrestricted station inside the closed box. Its value is that station's coordinates |
| ArcLink.NetworkEntryIgnored | obspyDMT/availability.py:53-54 | adding or changing a one-field network entry changes nothing in the output |
| ArcLink.NetworkEntryChannel | obspyDMT/availability.py:53-54 | adding or changing a one-field network entry neither adds nor removes a given channel key, nor changes its value |
| ArcLink.RestrictedStationDropped | obspyDMT/availability.py:60-61 | no channel of a restricted station is emitted |
| Iris.IrisChannels | obspyDMT/availability.py:107-131 | the reference fold: the stations in order, each station inside the box adding its covered channels' keys with its position over what came before |
| Iris.IrisChannelsKeys | obspyDMT/availability.py:107-131 | a key is in the output exactly when some station in the box has a channel with that key, and that channel has one single extent covering the window |
| Iris.IrisChannelsValue | obspyDMT/availability.py:129-131 | the value of a key is the position of the last station that writes it |
| Iris.IrisChannelsInBox | obspyDMT/availability.py:114-116 | every output position lies in the closed box |
| Iris.Covers | obspyDMT/availability.py:125-127 | one extent covers the window when both the requested start and the requested end lie between the extent's start and end, ends included |
| Iris.ChannelKey | obspyDMT/availability.py:129-130 | `"%s.%s.%s.%s" % (network_code, station_code, location_code, channel_code)` |
| Iris.AnyCovers | obspyDMT/availability.py:122-127 | some single extent in the list covers the window |
| Iris.Covered | obspyDMT/availability.py:121-127 | some single extent of some time span of a channel covers the window |
| Iris.CoveredKeys | obspyDMT/availability.py:118-131 | the keys of the channels of a station that some single extent covers |
| Iris.StationEntries | obspyDMT/availability.py:118-131 | what a station inside the box writes: each covered channel key, with the station's position |
| Iris.Emits | obspyDMT/availability.py:114-131 | a station writes a key when it lies in the closed box and the key is one of its covered channel keys |
| Geo.InBox | obspyDMT/availability.py:65-66 | the closed box: latitude and longitude each between their bounds, bounds included |
| Iris.CoversIsContainment | obspyDMT/availability.py:125-127 | for a window whose start does not come after its end, an extent covers it exactly when the extent contains the window |
| Iris.SplitExtentsDoNotCover | obspyDMT/availability.py:122-127 | two adjacent extents that cover the window only together do not cover it |
| Iris.ScanChannel | obspyDMT/availability.py:119-131 | scanning one channel's time spans and extents writes its key with the station's position exactly when some extent covers the window |
| Iris.ScanStation | obspyDMT/availability.py:118-131 | scanning one station's channels writes, over what was written before, the key of every covered channel of the station, each with the station's position, and nothing else |
| Iris.StationEntriesSnoc | obspyDMT/availability.py:118-131 | one more channel writes its key with the station's position exactly when it is covered, and otherwise changes nothing |
| Iris.IrisAvailability | obspyDMT/availability.py:107-132 | the four nested loops compute the last-write-wins fold over the stations, whose keys are exactly the covered channels of the stations in the box |
| Availability.IrisPart | obspyDMT/availability.py:196-198 | what IRIS contributes: its filtered channels when it answered, nothing when it failed |
| Availability.ArcLinkPart | obspyDMT/availability.py:207-209 | what ArcLink contributes: its filtered channels when it answered, nothing when it failed |
| Availability.Report | obspyDMT/availability.py:199-216 | one diagnostic naming the source and the reason for a failed source, none for a source that answered |
| Availability.GetAvailability | obspyDMT/availability.py:194-217 | the result's keys are the union of the keys of the sources that answered. A key from ArcLink takes ArcLink's value, and any other key takes IRIS's. One diagnostic is logged per failed source, IRIS first |
| Availability.BothSourcesFail | obspyDMT/availability.py:194-217 | when both sources fail, the result is the empty map and both failures are logged, in order |
| Availability.IrisFails | obspyDMT/availability.py:199-209 | an IRIS failure does not stop ArcLink: the result is ArcLink's output, and only the IRIS failure is logged |
| Availability.ArcLinkFails | obspyDMT/availability.py:196-216 | an ArcLink failure leaves IRIS's output as the result, and only the ArcLink failure is logged |

## Left out

- The remote calls are not part of the model: `obspy.arclink.Client().getNetworks` (lines 41-44) and `obspy.iris.Client().availability` (lines 99-102). Their answers are inputs, and either may be a `Failure` carrying a reason.
- Parsing the IRIS XML with `lxml.etree` (lines 105-124) is not modelled, including `find`, `get` and `.strip()`. The model takes already-parsed, already-stripped station records. A parse error, such as a missing `Lat`, is one of the failures of that input. The source parses `chan_code`, `loc_code` and the extent times (lines 119-124) only for stations inside the box, so a malformed channel of a station outside the box raises nothing there; a parsed-record input cannot express that case, and the model does not capture it.
- `UTCDateTime` construction and parsing (lines 123-124): times are integers, and only their order is used.
- Latitudes and longitudes are `real`, because the source only compares them with `<=` and does no floating-point arithmetic.
- `warnings.warn`, `logger.error` and the text built from `e.__class__.__name__` and `e.message` (lines 200-205, 211-216) are not modelled. Each failure appends one `CouldNotGetAvailability(source, reason)` to a log sequence, whichever way it would be reported.
- `os.path.normcase` is not modelled. `fnmatch` case-folds only on case-insensitive platforms, so matching is case-sensitive, as on POSIX.
- Fnmatch.Match: a reversed range such as `[z-a]` makes Python's regular-expression compiler raise an error. The model's range admits no character instead, so that exception is not modelled.
- `chans` and `current_channels` in `filter_channel_priority` are sets in the model, not lists. Duplicates and their order cannot change the map the function writes.
- The iteration order of Python dicts and sets (lines 50, 157-160) is not modelled. The method picks elements in an arbitrary order, and its contract holds for every order. For the `KeyError`, which missing key is reported depends on that order; the contract says only that it is a written key absent from the input.
- ArcLink.ArcLinkAvailability: the shared station dict that several emitted channels alias (lines 74-75) is a value in the model, so aliasing is not modelled.

## Findings

| source | as written | input that shows it | evidently intended | confidence | as-written member | corrected member |
|---|---|---|---|---|---|---|
| obspyDMT/availability.py:161-172 | a group collects the codes of every key that starts with the group's string (`_i.startswith(location)`), including keys of another location of the same station, and then looks up `location.chan` for each kept code | `{"IU.ANMO..LHZ", "IU.ANMO.00.BHZ"}` with the default priorities: group `IU.ANMO.` collects `LHZ` and `BHZ`, keeps `BHZ`, and looks up the missing `IU.ANMO..BHZ` (`KeyError`) | a group collects only its own keys (`_i.startswith(location + ".")`), so every lookup succeeds and filtering is idempotent | not executed | ChannelPriority.EmptyLocationLooksUpMissingKey | ChannelPriority.AnchoredFilterIdempotent |
