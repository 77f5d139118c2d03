/**
 * Per-house classification on the map: the house's grid cell, the fire risk
 * it sees from nearby burning cells, the alert that applies to it, and the
 * colour it is drawn in.
 */
module MapView {
  import opened Model
  import Grid
  import Report

  /** An alert as the map receives it, joined with its incident's fields. */
  datatype IncidentSummary = IncidentSummary(status: Status, kind: IncidentType, severity: int)
  datatype AlertView = AlertView(node: string, confirmed: bool, incidents: seq<IncidentSummary>)

  datatype Colour = Green | Yellow | Orange | Red | Purple

  /**
   * How the store delivers the incident joined through the alert's
   * many-to-one link: as a one-element array, as the map's type declares,
   * or as a single object, which fails the map's `Array.isArray` test and
   * so reaches it as no joined incident at all.
   */
  datatype Embedding = AsArray | AsObject

  /** The grid cell of a house, by the same mapping that seeds incidents. */
  function HouseCell(h: Household): Coord
  {
    Grid.ToGrid(h.lat, h.lng)
  }

  /** How far, in cells, a burning cell's influence reaches. */
  function InfluenceRadius(risk: real): (r: int)
    ensures 1 <= r <= 3
    ensures r == 3 <==> risk > 70.0
    ensures r == 1 <==> risk <= 40.0
  {
    if risk > 70.0 then 3 else if risk > 40.0 then 2 else 1
  }

  /** A riskier cell never reaches less far. */
  lemma InfluenceRadiusMonotone(a: real, b: real)
    requires a <= b
    ensures InfluenceRadius(a) <= InfluenceRadius(b)
  {
  }

  function SquaredDistance(a: Coord, b: Coord): int
  {
    (b.x - a.x) * (b.x - a.x) + (b.y - a.y) * (b.y - a.y)
  }

  /**
   * `sqrt(dx*dx + dy*dy) <= radius`, compared squared.  An absent risk
   * level compares as 0 and gives radius 1.
   */
  predicate InRange(house: Coord, c: Cell)
  {
    var r := InfluenceRadius(OrZero(c.risk));
    SquaredDistance(house, c.at) <= r * r
  }

  /**
   * The running maximum over the cells in range of `adjusted(cell, d2)`,
   * where `d2` is the squared cell distance, starting from 0.
   */
  method MaxFireRisk(house: Household, cells: seq<Cell>, adjusted: (Cell, int) -> real) returns (m: real)
    ensures m >= 0.0
    ensures forall c :: c in cells && InRange(HouseCell(house), c) ==> adjusted(c, SquaredDistance(HouseCell(house), c.at)) <= m
    ensures m == 0.0 || exists c :: c in cells && InRange(HouseCell(house), c) && adjusted(c, SquaredDistance(HouseCell(house), c.at)) == m
  {
    var g := HouseCell(house);
    m := 0.0;
    var i := 0;
    while i < |cells|
      invariant 0 <= i <= |cells|
      invariant m >= 0.0
      invariant forall j :: 0 <= j < i && InRange(g, cells[j]) ==> adjusted(cells[j], SquaredDistance(g, cells[j].at)) <= m
      invariant m == 0.0 || exists j :: 0 <= j < i && InRange(g, cells[j]) && adjusted(cells[j], SquaredDistance(g, cells[j].at)) == m
    {
      var cell := cells[i];
      var dx := cell.at.x - g.x;
      var dy := cell.at.y - g.y;
      var radius := InfluenceRadius(OrZero(cell.risk));
      if dx * dx + dy * dy <= radius * radius {
        var risk := adjusted(cell, dx * dx + dy * dy);
        if risk > m {
          m := risk;
        }
      }
      i := i + 1;
    }
  }

  /** `alerts.find(a => a.node_id === node)`: the first alert for the node. */
  function FindAlert(alerts: seq<AlertView>, node: string): (r: Option<AlertView>)
    ensures r.None? <==> forall j :: 0 <= j < |alerts| ==> alerts[j].node != node
    ensures r.Some? ==> exists j :: 0 <= j < |alerts| && alerts[j] == r.value && alerts[j].node == node
                                   && forall k :: 0 <= k < j ==> alerts[k].node != node
  {
    if alerts == [] then None
    else if alerts[0].node == node then Some(alerts[0])
    else
      var r := FindAlert(alerts[1..], node);
      if r.Some? then
        var j :| 0 <= j < |alerts[1..]| && alerts[1..][j] == r.value && alerts[1..][j].node == node
                 && forall k :: 0 <= k < j ==> alerts[1..][k].node != node;
        assert alerts[j + 1] == r.value;
        r
      else r
  }

  /** An alert whose first joined incident is an intrusion. */
  predicate IsIntrusionAlert(alert: Option<AlertView>)
  {
    alert.Some? && |alert.value.incidents| > 0 && alert.value.incidents[0].kind == Intrusion
  }

  /**
   * The colour of a house.  An intrusion alert decides alone; otherwise the
   * fire risk is banded with strict thresholds 75, 45 and 15.
   */
  function HouseColour(alert: Option<AlertView>, maxRisk: real): (c: Colour)
    ensures c == Purple <==> IsIntrusionAlert(alert) && alert.value.confirmed
    ensures IsIntrusionAlert(alert) ==> c == Purple || c == Yellow
    ensures c == Red <==> !IsIntrusionAlert(alert) && maxRisk > 75.0
    ensures c == Orange <==> !IsIntrusionAlert(alert) && 45.0 < maxRisk <= 75.0
    ensures c == Green <==> !IsIntrusionAlert(alert) && maxRisk <= 15.0
  {
    if IsIntrusionAlert(alert) then
      if alert.value.confirmed then Purple else Yellow
    else if maxRisk > 75.0 then Red
    else if maxRisk > 45.0 then Orange
    else if maxRisk > 15.0 then Yellow
    else Green
  }

  function Rank(c: Colour): nat
  {
    match c
    case Green => 0
    case Yellow => 1
    case Orange => 2
    case Red => 3
    case Purple => 4
  }

  /** Without an intrusion alert, more fire risk never gives a milder colour. */
  lemma FireColourMonotone(alert: Option<AlertView>, a: real, b: real)
    requires !IsIntrusionAlert(alert) && a <= b
    ensures Rank(HouseColour(alert, a)) <= Rank(HouseColour(alert, b))
  {
  }

  /**
   * An alert row as the active-alerts endpoint serves it, as written: the
   * node id and the joined incident's status, type and severity, in either
   * shape.  The `confirmed` column is not selected, so the map reads it as
   * absent.
   */
  function ServedAlertAsWritten(a: Alert, inc: Incident, shape: Embedding): (v: AlertView)
    ensures v.node == a.node && !v.confirmed
    ensures shape == AsArray ==> |v.incidents| == 1 && v.incidents[0].kind == inc.kind
    ensures shape == AsObject ==> !IsIntrusionAlert(Some(v))
  {
    var summary := IncidentSummary(inc.status, inc.kind, inc.severity);
    AlertView(a.node, false, if shape == AsArray then [summary] else [])
  }

  /** The served alert with `confirmed` selected too, joined as an array, as the map expects. */
  function ServedAlert(a: Alert, inc: Incident): (v: AlertView)
    ensures v.node == a.node && v.confirmed == a.confirmed
    ensures |v.incidents| == 1 && v.incidents[0].kind == inc.kind
  {
    AlertView(a.node, a.confirmed, [IncidentSummary(inc.status, inc.kind, inc.severity)])
  }

  /**
   * As written, the origin of a reported intrusion gets its confirmed alert
   * but is never drawn purple, whatever the join's shape: as an array it is
   * drawn yellow like every neighbour, as an object it is coloured by fire
   * risk.
   */
  lemma OriginNeverPurpleAsWritten(hs: seq<Household>, origin: Household, inc: Incident, shape: Embedding, risk: real)
    requires origin in hs && inc.kind == Intrusion
    ensures Alert(inc.id, origin.node, true) in Report.AlertRows(hs, origin, origin.node, inc.id)
    ensures HouseColour(Some(ServedAlertAsWritten(Alert(inc.id, origin.node, true), inc, shape)), risk) != Purple
    ensures shape == AsArray ==> HouseColour(Some(ServedAlertAsWritten(Alert(inc.id, origin.node, true), inc, shape)), risk) == Yellow
  {
    Report.OriginAlerted(hs, origin, inc.id);
  }

  /**
   * With `confirmed` served and the incident joined as an array, the origin
   * of a reported intrusion is drawn purple and every other alerted
   * household yellow, whatever the fire risk.
   */
  lemma OriginDrawnPurple(hs: seq<Household>, origin: Household, inc: Incident, risk: real)
    requires origin in hs && inc.kind == Intrusion
    ensures Alert(inc.id, origin.node, true) in Report.AlertRows(hs, origin, origin.node, inc.id)
    ensures HouseColour(Some(ServedAlert(Alert(inc.id, origin.node, true), inc)), risk) == Purple
    ensures forall a :: a in Report.AlertRows(hs, origin, origin.node, inc.id) && a.node != origin.node ==>
      HouseColour(Some(ServedAlert(a, inc)), risk) == Yellow
  {
    Report.OriginAlerted(hs, origin, inc.id);
  }
}
