/**
 * Resetting the simulation: every active incident is resolved (without a
 * resolution time), and alerts and cells are deleted through filters that
 * only spare rows carrying the literal sentinels.
 */
module Reset {
  import opened Model
  import Tables

  const NEVER_MATCH_NODE: string := "___never_match___"
  const NEVER_MATCH_X: int := -999999

  /** `update({status: resolved}).eq("status", "active")`. */
  function ResolveActive(incs: seq<Incident>): (r: seq<Incident>)
    ensures |r| == |incs|
    ensures forall j :: 0 <= j < |r| ==> r[j].status == Resolved
    ensures forall j :: 0 <= j < |r| ==> r[j].(status := incs[j].status) == incs[j]
    ensures forall j :: 0 <= j < |r| && incs[j].status != Active ==> r[j] == incs[j]
  {
    seq(|incs|, j requires 0 <= j < |incs| =>
      if incs[j].status == Active then incs[j].(status := Resolved) else incs[j])
  }

  /** `delete().neq("node_id", NEVER_MATCH_NODE)`: only sentinel rows survive. */
  function ClearAlerts(alerts: seq<Alert>): (r: seq<Alert>)
    ensures forall a :: a in r <==> a in alerts && a.node == NEVER_MATCH_NODE
  {
    Tables.Keep(alerts, (a: Alert) => a.node == NEVER_MATCH_NODE)
  }

  /** `delete().neq("cell_x", NEVER_MATCH_X)`: only sentinel rows survive. */
  function ClearCells(cells: seq<Cell>): (r: seq<Cell>)
    ensures forall c :: c in r <==> c in cells && c.at.x == NEVER_MATCH_X
  {
    Tables.Keep(cells, (c: Cell) => c.at.x == NEVER_MATCH_X)
  }

  /** A second reset leaves all three tables as the first one left them. */
  lemma ResetIdempotent(incs: seq<Incident>, alerts: seq<Alert>, cells: seq<Cell>)
    ensures ResolveActive(ResolveActive(incs)) == ResolveActive(incs)
    ensures ClearAlerts(ClearAlerts(alerts)) == ClearAlerts(alerts)
    ensures ClearCells(ClearCells(cells)) == ClearCells(cells)
  {
    Tables.KeepIdempotent(alerts, (a: Alert) => a.node == NEVER_MATCH_NODE);
    Tables.KeepIdempotent(cells, (c: Cell) => c.at.x == NEVER_MATCH_X);
  }

  /** Without sentinel rows, a reset empties the alert and cell tables. */
  lemma ResetEmpties(alerts: seq<Alert>, cells: seq<Cell>)
    requires forall j :: 0 <= j < |alerts| ==> alerts[j].node != NEVER_MATCH_NODE
    requires forall j :: 0 <= j < |cells| ==> cells[j].at.x != NEVER_MATCH_X
    ensures ClearAlerts(alerts) == [] && ClearCells(cells) == []
  {
    Tables.KeepNone(alerts, (a: Alert) => a.node == NEVER_MATCH_NODE);
    Tables.KeepNone(cells, (c: Cell) => c.at.x == NEVER_MATCH_X);
  }

  /** The reset handler: no incident row is deleted, and afterwards none is active. */
  method ResetIncidents(db: Store)
    requires db.Valid()
    modifies db
    ensures db.Valid()
    ensures db.incidents == ResolveActive(old(db.incidents))
    ensures db.alerts == ClearAlerts(old(db.alerts))
    ensures db.cells == ClearCells(old(db.cells))
  {
    db.incidents := ResolveActive(db.incidents);
    db.alerts := ClearAlerts(db.alerts);
    db.cells := ClearCells(db.cells);
  }
}
