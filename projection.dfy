/** lat_lon_to_unity_coords (osm_to_pbsu.py:203-233): an equirectangular
    approximation around an origin, in metres, with Unity's axes (x east,
    y up, z north). math.cos is the runtime's `cos`; math.radians is
    multiplication by pi / 180. */
module Projection {
  import opened Runtime

  const EarthRadius: real := 6371000.0

  /** math.pi written out to the digits Python prints. */
  const Pi: real := 3.141592653589793

  /** math.radians */
  function Radians(deg: real): real {
    deg * Pi / 180.0
  }

  datatype Vec3 = Vec3(x: real, y: real, z: real)

  function LatLonToUnity(lat: real, lon: real, originLat: real, originLon: real, rt: Runtime): Vec3 {
    var dlat := Radians(lat) - Radians(originLat);
    var dlon := Radians(lon) - Radians(originLon);
    Vec3(dlon * EarthRadius * rt.cos(Radians(originLat)), 0.0, dlat * EarthRadius)
  }

  lemma RadiansMonotone(a: real, b: real)
    ensures a < b <==> Radians(a) < Radians(b)
    ensures a == b <==> Radians(a) == Radians(b)
  {
  }

  /** The ground plane: y is always 0. The origin itself maps to (0, 0, 0). */
  lemma OriginMapsToZero(lat: real, lon: real, rt: Runtime)
    ensures LatLonToUnity(lat, lon, lat, lon, rt) == Vec3(0.0, 0.0, 0.0)
  {
  }

  /** North of the origin z is positive, south negative, and z alone does not
      depend on the longitude. */
  lemma NorthIsPositiveZ(lat: real, lon: real, originLat: real, originLon: real, rt: Runtime)
    ensures LatLonToUnity(lat, lon, originLat, originLon, rt).y == 0.0
    ensures lat > originLat <==> LatLonToUnity(lat, lon, originLat, originLon, rt).z > 0.0
    ensures lat == originLat <==> LatLonToUnity(lat, lon, originLat, originLon, rt).z == 0.0
  {
    RadiansMonotone(lat, originLat);
    RadiansMonotone(originLat, lat);
    var d := Radians(lat) - Radians(originLat);
    assert d > 0.0 <==> d * EarthRadius > 0.0;
  }

  /** Where the cosine of the origin latitude is positive (any latitude
      strictly between the poles), east of the origin x is positive. */
  lemma EastIsPositiveX(lat: real, lon: real, originLat: real, originLon: real, rt: Runtime)
    requires rt.cos(Radians(originLat)) > 0.0
    ensures lon > originLon <==> LatLonToUnity(lat, lon, originLat, originLon, rt).x > 0.0
    ensures lon == originLon <==> LatLonToUnity(lat, lon, originLat, originLon, rt).x == 0.0
  {
    RadiansMonotone(lon, originLon);
    RadiansMonotone(originLon, lon);
    var d := Radians(lon) - Radians(originLon);
    var c := rt.cos(Radians(originLat));
    assert d > 0.0 <==> d * EarthRadius > 0.0;
    var e := d * EarthRadius;
    assert e > 0.0 <==> e * c > 0.0;
    assert e == 0.0 <==> e * c == 0.0;
  }
}
