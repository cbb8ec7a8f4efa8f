/**
 * `get_availability`: ask IRIS, then ArcLink, and merge what each returns.
 * The remote calls are inputs: each source's response is either what the
 * service returned or the exception that the call, the parsing or the
 * filtering raised.
 */
module Availability {
  import opened Wrappers
  import opened Geo
  import opened Maps
  import ArcLink
  import Iris

  datatype Source = IrisSource | ArcLinkSource

  /** The message passed to `logger.error` or `warnings.warn` when a source fails. */
  datatype Diagnostic = CouldNotGetAvailability(source: Source, reason: string)

  /** What a source adds to the merged map: nothing when it failed. */
  function IrisPart(response: Result<seq<Iris.Station>, string>, box: Box, window: Iris.Window): map<string, Location>
  {
    if response.Success? then Iris.IrisChannels(response.value, box, window) else map[]
  }

  function ArcLinkPart(response: Result<map<string, ArcLink.Entry>, string>, box: Box): map<string, Location>
  {
    if response.Success? then ArcLink.ArcLinkChannels(response.value, box) else map[]
  }

  /** The diagnostic a failed source leaves, none for a source that answered. */
  function Report<T>(source: Source, response: Result<T, string>): seq<Diagnostic>
  {
    if response.Failure? then [CouldNotGetAvailability(source, response.error)] else []
  }

  /**
   * Lines 194-217: both sources are tried whatever happens to the other;
   * IRIS is applied first and ArcLink second, so ArcLink's value wins on a
   * key both report; a failed source only adds its diagnostic.
   */
  method GetAvailability(
    box: Box, window: Iris.Window,
    irisResponse: Result<seq<Iris.Station>, string>,
    arclinkResponse: Result<map<string, ArcLink.Entry>, string>)
    returns (availability: map<string, Location>, log: seq<Diagnostic>)
    ensures availability.Keys == IrisPart(irisResponse, box, window).Keys + ArcLinkPart(arclinkResponse, box).Keys
    ensures forall key :: key in ArcLinkPart(arclinkResponse, box) ==>
      availability[key] == ArcLinkPart(arclinkResponse, box)[key]
    ensures forall key :: key in IrisPart(irisResponse, box, window) && key !in ArcLinkPart(arclinkResponse, box) ==>
      availability[key] == IrisPart(irisResponse, box, window)[key]
    ensures log == Report(IrisSource, irisResponse) + Report(ArcLinkSource, arclinkResponse)
  {
    availability := map[];
    log := [];
    match irisResponse {
      case Success(stations) =>
        var irisAvailability := Iris.IrisAvailability(stations, box, window);
        availability := availability + irisAvailability;
      case Failure(reason) =>
        log := log + [CouldNotGetAvailability(IrisSource, reason)];
    }
    match arclinkResponse {
      case Success(everything) =>
        var arclinkAvailability := ArcLink.ArcLinkAvailability(everything, box);
        availability := availability + arclinkAvailability;
      case Failure(reason) =>
        log := log + [CouldNotGetAvailability(ArcLinkSource, reason)];
    }
  }

  /** When both sources fail the result is empty and both failures are reported. */
  method BothSourcesFail(box: Box, window: Iris.Window, irisReason: string, arclinkReason: string)
    returns (availability: map<string, Location>, log: seq<Diagnostic>)
    ensures availability == map[]
    ensures log == [CouldNotGetAvailability(IrisSource, irisReason), CouldNotGetAvailability(ArcLinkSource, arclinkReason)]
  {
    availability, log := GetAvailability(box, window, Failure(irisReason), Failure(arclinkReason));
  }

  /** A failed IRIS call leaves exactly ArcLink's channels. */
  method IrisFails(box: Box, window: Iris.Window, irisReason: string, everything: map<string, ArcLink.Entry>)
    returns (availability: map<string, Location>, log: seq<Diagnostic>)
    ensures availability == ArcLink.ArcLinkChannels(everything, box)
    ensures log == [CouldNotGetAvailability(IrisSource, irisReason)]
  {
    availability, log := GetAvailability(box, window, Failure(irisReason), Success(everything));
    SameMaps(availability, ArcLink.ArcLinkChannels(everything, box));
  }

  /** A failed ArcLink call leaves exactly IRIS's channels. */
  method ArcLinkFails(box: Box, window: Iris.Window, stations: seq<Iris.Station>, arclinkReason: string)
    returns (availability: map<string, Location>, log: seq<Diagnostic>)
    ensures availability == Iris.IrisChannels(stations, box, window)
    ensures log == [CouldNotGetAvailability(ArcLinkSource, arclinkReason)]
  {
    availability, log := GetAvailability(box, window, Success(stations), Failure(arclinkReason));
    SameMaps(availability, Iris.IrisChannels(stations, box, window));
  }

}
