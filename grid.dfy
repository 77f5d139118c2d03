/**
 * The flat-earth grid: a fixed anchor, fixed metres per degree on each axis
 * (no cosine correction) and 50 m square cells.  `cell_x` runs with
 * longitude and `cell_y` with latitude.
 */
module Grid {
  import opened Model

  const BASE_LAT: real := 17.4675
  const BASE_LNG: real := 78.3071
  const CELL_SIZE: real := 50.0
  const METRES_PER_DEG_LNG: real := 111320.0
  const METRES_PER_DEG_LAT: real := 110540.0

  datatype LatLng = LatLng(lat: real, lng: real)

  /** South-west and north-east corners of a cell, as the map draws it. */
  datatype Bounds = Bounds(sw: LatLng, ne: LatLng)

  /** Cell-unit offsets of a point from the anchor, before flooring. */
  function CellsEast(lng: real): real
  {
    (lng - BASE_LNG) * METRES_PER_DEG_LNG / CELL_SIZE
  }

  function CellsNorth(lat: real): real
  {
    (lat - BASE_LAT) * METRES_PER_DEG_LAT / CELL_SIZE
  }

  /** The grid cell containing a point: the floor of its cell-unit offsets. */
  function ToGrid(lat: real, lng: real): (g: Coord)
    ensures g.x as real <= CellsEast(lng) < g.x as real + 1.0
    ensures g.y as real <= CellsNorth(lat) < g.y as real + 1.0
  {
    Coord(CellsEast(lng).Floor, CellsNorth(lat).Floor)
  }

  /** The rectangle the map draws for a cell. */
  function CellToBounds(gx: int, gy: int): (b: Bounds)
    ensures b.sw.lat < b.ne.lat && b.sw.lng < b.ne.lng
    ensures CellsNorth(b.sw.lat) == gy as real && CellsNorth(b.ne.lat) == gy as real + 1.0
    ensures CellsEast(b.sw.lng) == gx as real && CellsEast(b.ne.lng) == gx as real + 1.0
  {
    var lat := BASE_LAT + (gy as real * CELL_SIZE) / METRES_PER_DEG_LAT;
    var lng := BASE_LNG + (gx as real * CELL_SIZE) / METRES_PER_DEG_LNG;
    var height := CELL_SIZE / METRES_PER_DEG_LAT;
    var width := CELL_SIZE / METRES_PER_DEG_LNG;
    Bounds(LatLng(lat, lng), LatLng(lat + height, lng + width))
  }

  /** Every point of the half-open rectangle of a cell maps back to that cell. */
  lemma BoundsRoundTrip(gx: int, gy: int, p: LatLng)
    requires CellToBounds(gx, gy).sw.lat <= p.lat < CellToBounds(gx, gy).ne.lat
    requires CellToBounds(gx, gy).sw.lng <= p.lng < CellToBounds(gx, gy).ne.lng
    ensures ToGrid(p.lat, p.lng) == Coord(gx, gy)
  {
  }

  /** The centre of a cell's rectangle maps back to the cell. */
  lemma CentreRoundTrip(gx: int, gy: int)
    ensures var b := CellToBounds(gx, gy);
            ToGrid((b.sw.lat + b.ne.lat) / 2.0, (b.sw.lng + b.ne.lng) / 2.0) == Coord(gx, gy)
  {
    var b := CellToBounds(gx, gy);
    BoundsRoundTrip(gx, gy, LatLng((b.sw.lat + b.ne.lat) / 2.0, (b.sw.lng + b.ne.lng) / 2.0));
  }
}
