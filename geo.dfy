/** Station positions and the closed latitude/longitude box both fetchers test against. */
module Geo {

  /** The `{"latitude": ..., "longitude": ...}` value stored for every channel. */
  datatype Location = Location(latitude: real, longitude: real)

  datatype Box = Box(minLat: real, maxLat: real, minLng: real, maxLng: real)

  /** `min_lat <= latitude <= max_lat` and `min_lng <= longitude <= max_lng`: both bounds included. */
  predicate InBox(box: Box, latitude: real, longitude: real)
  {
    box.minLat <= latitude <= box.maxLat && box.minLng <= longitude <= box.maxLng
  }
}
