/**
 * Reporting an incident: look up the origin household, insert the
 * incident, then either fan out intrusion alerts to the households within
 * 120 m of the origin or seed one burning cell at the origin's grid cell.
 */
module Report {
  import opened Model
  import Tables
  import Grid
  import Decay

  const RADIUS_METRES: real := 120.0

  /** Initial risk level and decay factor of a seeded cell. */
  datatype Config = Config(risk: real, decay: real)

  const SeverityTable: map<int, Config> :=
    map[1 := Config(40.0, 0.6), 2 := Config(70.0, 0.75), 3 := Config(100.0, 0.85)]

  /** Table lookup with the severity-1 entry as fallback. */
  function SeverityConfig(severity: int): (c: Config)
    ensures 0.0 < c.decay < 1.0 && 40.0 <= c.risk <= 100.0
    ensures severity !in SeverityTable ==> c == Config(40.0, 0.6)
    ensures severity in SeverityTable ==> c == SeverityTable[severity]
  {
    if severity in SeverityTable then SeverityTable[severity] else SeverityTable[1]
  }

  /** Higher listed severities seed a hotter, slower-decaying cell. */
  lemma SeverityConfigOrdered(s1: int, s2: int)
    requires 1 <= s1 <= s2 <= 3
    ensures SeverityConfig(s1).risk <= SeverityConfig(s2).risk
    ensures SeverityConfig(s1).decay <= SeverityConfig(s2).decay
  {
  }

  /** The households carrying a node id. */
  function Named(hs: seq<Household>, node: string): seq<Household>
  {
    Tables.Keep(hs, (h: Household) => h.node == node)
  }

  /** `.eq("node_id", id).single()`: a household only when exactly one matches. */
  function Lookup(hs: seq<Household>, node: string): (r: Option<Household>)
    ensures r.Some? <==> |Named(hs, node)| == 1
    ensures r.Some? ==> r.value in hs && r.value.node == node
  {
    var named := Named(hs, node);
    if |named| == 1 then
      assert named[0] in named;
      Some(named[0])
    else None
  }

  /** Flat-earth distance to the origin within the radius, compared squared. */
  predicate Within(h: Household, origin: Household)
  {
    var dx := (h.lng - origin.lng) * Grid.METRES_PER_DEG_LNG;
    var dy := (h.lat - origin.lat) * Grid.METRES_PER_DEG_LAT;
    dx * dx + dy * dy <= RADIUS_METRES * RADIUS_METRES
  }

  /**
   * Alert rows of an intrusion, in household order: one per household
   * within the radius, confirmed exactly for the origin's node id.
   */
  function AlertRows(hs: seq<Household>, origin: Household, originId: string, incident: string): (r: seq<Alert>)
    ensures |r| <= |hs|
    ensures forall a :: a in r ==> a.incident == incident && a.confirmed == (a.node == originId)
    ensures forall a :: a in r ==> exists h :: h in hs && Within(h, origin) && h.node == a.node
    ensures forall h :: h in hs && Within(h, origin) ==> Alert(incident, h.node, h.node == originId) in r
  {
    if hs == [] then []
    else
      var rest := AlertRows(hs[1..], origin, originId, incident);
      if Within(hs[0], origin) then [Alert(incident, hs[0].node, hs[0].node == originId)] + rest
      else rest
  }

  /** Households the fan-out reaches. */
  function Reached(hs: seq<Household>, origin: Household): seq<Household>
  {
    Tables.Keep(hs, (h: Household) => Within(h, origin))
  }

  /** The alert count reported back equals the number of households in range. */
  lemma {:induction false} AlertCount(hs: seq<Household>, origin: Household, originId: string, incident: string)
    ensures |AlertRows(hs, origin, originId, incident)| == |Reached(hs, origin)|
  {
    if hs != [] {
      AlertCount(hs[1..], origin, originId, incident);
    }
  }

  /** The fan-out preserves household order: it commutes with concatenation. */
  lemma {:induction false} AlertRowsConcat(a: seq<Household>, b: seq<Household>, origin: Household, originId: string, incident: string)
    ensures AlertRows(a + b, origin, originId, incident)
      == AlertRows(a, origin, originId, incident) + AlertRows(b, origin, originId, incident)
  {
    if a == [] {
      assert a + b == b;
    } else {
      assert (a + b)[0] == a[0];
      assert (a + b)[1..] == a[1..] + b;
      AlertRowsConcat(a[1..], b, origin, originId, incident);
    }
  }

  /** The origin, at distance 0, always receives a confirmed alert. */
  lemma OriginAlerted(hs: seq<Household>, origin: Household, incident: string)
    requires origin in hs
    ensures Alert(incident, origin.node, true) in AlertRows(hs, origin, origin.node, incident)
    ensures |AlertRows(hs, origin, origin.node, incident)| >= 1
  {
    assert Within(origin, origin);
  }

  /** The single cell a fire or gas report seeds. */
  function SeedCell(incident: string, origin: Household, severity: int): (c: Cell)
    ensures c.at == Grid.ToGrid(origin.lat, origin.lng)
    ensures c.incident == incident
    ensures c.risk == Some(SeverityConfig(severity).risk) && c.decay == Some(SeverityConfig(severity).decay)
  {
    var config := SeverityConfig(severity);
    Cell(incident, Grid.ToGrid(origin.lat, origin.lng), Some(config.risk), Some(config.decay))
  }

  /** Every seed is hot enough to emit eight rows on the next decay tick. */
  lemma SeedEmits(incident: string, origin: Household, severity: int)
    ensures Decay.Emits(SeedCell(incident, origin, severity))
    ensures |Decay.EmittedFrom(SeedCell(incident, origin, severity))| == 8
  {
  }

  datatype ReportResponse = Reported(affectedCount: nat) | OriginNotFound | CreateFailed

  function StatusCode(r: ReportResponse): int
  {
    match r
    case Reported(_) => 200
    case OriginNotFound => 404
    case CreateFailed => 500
  }

  /**
   * The report handler.  `generated` is the id the store assigns to the new
   * incident row, or None when that insert fails.
   */
  method ReportIncident(db: Store, originId: string, title: string, description: string,
                        kind: IncidentType, severity: int, now: int, generated: Option<string>)
    returns (res: ReportResponse)
    requires db.Valid()
    requires generated.Some? ==> forall j :: 0 <= j < |db.incidents| ==> db.incidents[j].id != generated.value
    modifies db
    ensures db.Valid()
    ensures Lookup(db.households, originId).None? ==>
      res == OriginNotFound && StatusCode(res) == 404
      && db.incidents == old(db.incidents) && db.cells == old(db.cells) && db.alerts == old(db.alerts)
    ensures Lookup(db.households, originId).Some? && generated.None? ==>
      res == CreateFailed && StatusCode(res) == 500
      && db.incidents == old(db.incidents) && db.cells == old(db.cells) && db.alerts == old(db.alerts)
    ensures Lookup(db.households, originId).Some? && generated.Some? ==>
      var origin := Lookup(db.households, originId).value;
      var id := generated.value;
      && db.incidents == old(db.incidents) + [Incident(id, originId, title, description, kind, severity, Active, now, None)]
      && (kind == Intrusion ==>
            var rows := AlertRows(db.households, origin, originId, id);
            db.alerts == old(db.alerts) + rows && db.cells == old(db.cells) && res == Reported(|rows|))
      && (kind != Intrusion ==>
            db.cells == old(db.cells) + [SeedCell(id, origin, severity)] && db.alerts == old(db.alerts) && res == Reported(1))
  {
    var found := Lookup(db.households, originId);
    if found.None? {
      return OriginNotFound;
    }
    var origin := found.value;
    if generated.None? {
      return CreateFailed;
    }
    var id := generated.value;
    db.incidents := db.incidents + [Incident(id, originId, title, description, kind, severity, Active, now, None)];
    if kind == Intrusion {
      var rows := AlertRows(db.households, origin, originId, id);
      db.alerts := db.alerts + rows;
      return Reported(|rows|);
    }
    var config := SeverityConfig(severity);
    var g := Grid.ToGrid(origin.lat, origin.lng);
    db.cells := db.cells + [Cell(id, g, Some(config.risk), Some(config.decay))];
    res := Reported(1);
  }
}
