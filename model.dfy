/**
 * Rows of the four tables the incident simulation works on, and the store
 * that holds them.  Times are integer milliseconds; grid coordinates are
 * integers; geographic coordinates and risk values are exact reals.
 */
module Model {

  datatype Option<T> = None | Some(value: T)

  /** Integer coordinates of one 50 m grid cell (`cell_x`, `cell_y`). */
  datatype Coord = Coord(x: int, y: int)

  datatype IncidentType = Fire | Gas | Intrusion

  datatype Status = Active | Resolved

  datatype Incident = Incident(
    id: string,
    origin: string,
    title: string,
    description: string,
    kind: IncidentType,
    severity: int,
    status: Status,
    startedAt: int,
    resolvedAt: Option<int>)

  /**
   * A burning cell.  Rows written by wave expansion carry neither a risk
   * level nor a decay factor, so both are optional.
   */
  datatype Cell = Cell(incident: string, at: Coord, risk: Option<real>, decay: Option<real>)

  datatype Alert = Alert(incident: string, node: string, confirmed: bool)

  datatype Household = Household(node: string, lat: real, lng: real)

  /** The value an absent (null) column takes in arithmetic and comparisons. */
  function OrZero(v: Option<real>): real
  {
    if v.Some? then v.value else 0.0
  }

  function Shift(c: Coord, d: Coord): Coord
  {
    Coord(c.x + d.x, c.y + d.y)
  }

  /**
   * The shared store.  Households are reference data that the engine never
   * writes; the other three tables are replaced wholesale by each handler.
   */
  class Store {
    var incidents: seq<Incident>
    var cells: seq<Cell>
    var alerts: seq<Alert>
    const households: seq<Household>

    /** Incident ids are generated by the store and never repeat. */
    ghost predicate Valid()
      reads this
    {
      forall i, j :: 0 <= i < j < |incidents| ==> incidents[i].id != incidents[j].id
    }

    constructor (households: seq<Household>)
      ensures Valid() && this.households == households
      ensures incidents == [] && cells == [] && alerts == []
    {
      this.households := households;
      incidents, cells, alerts := [], [], [];
    }
  }
}
