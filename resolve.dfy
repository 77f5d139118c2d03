/** Resolving one incident: mark it resolved and delete its burning cells. */
module Resolve {
  import opened Model
  import Tables

  /** A request id the handler rejects: absent or empty (falsy). */
  predicate Falsy(id: Option<string>)
  {
    id.None? || id.value == ""
  }

  /** `update({status: resolved, resolved_at: now}).eq("incident_id", id)`. */
  function MarkResolved(incs: seq<Incident>, id: string, now: int): (r: seq<Incident>)
    ensures |r| == |incs|
    ensures forall j :: 0 <= j < |incs| && incs[j].id == id ==>
      r[j].status == Resolved && r[j].resolvedAt == Some(now)
      && r[j].(status := incs[j].status, resolvedAt := incs[j].resolvedAt) == incs[j]
    ensures forall j :: 0 <= j < |incs| && incs[j].id != id ==> r[j] == incs[j]
  {
    seq(|incs|, j requires 0 <= j < |incs| =>
      if incs[j].id == id then incs[j].(status := Resolved, resolvedAt := Some(now)) else incs[j])
  }

  /** `delete().eq("incident_id", id)` on the cell table. */
  function DeleteCellsOf(cells: seq<Cell>, id: string): (r: seq<Cell>)
    ensures forall c :: c in r <==> c in cells && c.incident != id
  {
    Tables.Keep(cells, (c: Cell) => c.incident != id)
  }

  /** An id no incident carries changes no incident. */
  lemma UnknownIdChangesNothing(incs: seq<Incident>, id: string, now: int)
    requires forall j :: 0 <= j < |incs| ==> incs[j].id != id
    ensures MarkResolved(incs, id, now) == incs
  {
  }

  /** Deleting one incident's cells twice is the same as once. */
  lemma DeleteCellsIdempotent(cells: seq<Cell>, id: string)
    ensures DeleteCellsOf(DeleteCellsOf(cells, id), id) == DeleteCellsOf(cells, id)
  {
    Tables.KeepIdempotent(cells, (c: Cell) => c.incident != id);
  }

  /** The cells of other incidents survive in their original order. */
  lemma DeleteCellsKeepsOrder(a: seq<Cell>, b: seq<Cell>, id: string)
    ensures DeleteCellsOf(a + b, id) == DeleteCellsOf(a, id) + DeleteCellsOf(b, id)
  {
    Tables.KeepConcat(a, b, (c: Cell) => c.incident != id);
  }

  /** An incident without cells leaves the cell table as it is. */
  lemma DeleteAbsentCellsChangesNothing(cells: seq<Cell>, id: string)
    requires forall j :: 0 <= j < |cells| ==> cells[j].incident != id
    ensures DeleteCellsOf(cells, id) == cells
  {
    Tables.KeepAll(cells, (c: Cell) => c.incident != id);
  }

  /**
   * The resolve handler: 400 for a falsy id with nothing changed; otherwise
   * the incident is resolved, its cells deleted, and alerts left alone.
   */
  method ResolveIncident(db: Store, incidentId: Option<string>, now: int) returns (status: int)
    requires db.Valid()
    modifies db
    ensures db.Valid()
    ensures db.alerts == old(db.alerts)
    ensures Falsy(incidentId) ==>
      status == 400 && db.incidents == old(db.incidents) && db.cells == old(db.cells)
    ensures !Falsy(incidentId) ==>
      && status == 200
      && db.incidents == MarkResolved(old(db.incidents), incidentId.value, now)
      && db.cells == DeleteCellsOf(old(db.cells), incidentId.value)
  {
    if Falsy(incidentId) {
      return 400;
    }
    var id := incidentId.value;
    db.incidents := MarkResolved(db.incidents, id, now);
    db.cells := DeleteCellsOf(db.cells, id);
    status := 200;
  }
}
