/**
 * Decay propagation: every burning cell, whatever its incident's status,
 * offers `risk_level * decay_factor` to each of its eight Moore neighbours,
 * and the offer becomes a new row when it is at least the cutoff.  Nothing
 * is merged: the cell table behaves as a multiset.
 */
module Decay {
  import opened Model

  const CUTOFF: real := 20.0

  /** Neighbour offsets in the order the handler visits them. */
  const Moore: seq<Coord> := [
    Coord(-1, -1), Coord(-1, 0), Coord(-1, 1),
    Coord(0, -1),                Coord(0, 1),
    Coord(1, -1),  Coord(1, 0),  Coord(1, 1)]

  predicate IsMooreNeighbour(a: Coord, b: Coord)
  {
    a != b && -1 <= b.x - a.x <= 1 && -1 <= b.y - a.y <= 1
  }

  /** The risk a cell offers its neighbours; an absent column counts as 0. */
  function NextRisk(c: Cell): real
  {
    OrZero(c.risk) * OrZero(c.decay)
  }

  predicate Emits(c: Cell)
  {
    !(NextRisk(c) < CUTOFF)
  }

  /** The row emitted from `c` towards its `k`-th neighbour. */
  function Emitted(c: Cell, k: nat): Cell
    requires k < |Moore|
  {
    Cell(c.incident, Shift(c.at, Moore[k]), Some(NextRisk(c)), c.decay)
  }

  /** Rows emitted from `c` towards its first `k` neighbours. */
  function EmittedUpTo(c: Cell, k: nat): (r: seq<Cell>)
    requires k <= |Moore|
    ensures |r| == if Emits(c) then k else 0
  {
    if Emits(c) then seq(k, j requires 0 <= j < k => Emitted(c, j)) else []
  }

  function EmittedFrom(c: Cell): seq<Cell>
  {
    EmittedUpTo(c, |Moore|)
  }

  /** All rows one tick emits, source by source in table order. */
  function Emissions(cells: seq<Cell>): seq<Cell>
  {
    if cells == [] then []
    else Emissions(cells[..|cells| - 1]) + EmittedFrom(cells[|cells| - 1])
  }

  /** Number of cells whose offered risk reaches the cutoff. */
  function EmitterCount(cells: seq<Cell>): (n: nat)
    ensures n <= |cells|
  {
    if cells == [] then 0
    else EmitterCount(cells[..|cells| - 1]) + (if Emits(cells[|cells| - 1]) then 1 else 0)
  }

  /** How emitted row `e` stands to its source `s`. */
  predicate EmittedBy(e: Cell, s: Cell)
  {
    && Emits(s)
    && e.incident == s.incident
    && e.decay == s.decay
    && e.risk == Some(NextRisk(s))
    && IsMooreNeighbour(s.at, e.at)
  }

  /** Exactly eight rows per emitting source and none otherwise. */
  lemma {:induction false} EmissionCount(cells: seq<Cell>)
    ensures |Emissions(cells)| == 8 * EmitterCount(cells)
  {
    if cells != [] {
      EmissionCount(cells[..|cells| - 1]);
    }
  }

  /** Each emitted row comes from a cell of the table, one Moore step away. */
  lemma {:induction false} EmissionSource(cells: seq<Cell>, e: Cell)
    requires e in Emissions(cells)
    ensures exists s :: s in cells && EmittedBy(e, s)
    ensures e.risk.Some? && e.risk.value >= CUTOFF
  {
    var n := |cells| - 1;
    if e in Emissions(cells[..n]) {
      EmissionSource(cells[..n], e);
      var s :| s in cells[..n] && EmittedBy(e, s);
      assert s in cells;
    } else {
      var c := cells[n];
      var k :| 0 <= k < |EmittedFrom(c)| && EmittedFrom(c)[k] == e;
      assert EmittedBy(e, c);
    }
  }

  /** An emitting cell covers each of its eight neighbours once, and never itself. */
  lemma EmittedFromCoversMoore(c: Cell, b: Coord)
    requires Emits(c)
    ensures IsMooreNeighbour(c.at, b) <==> exists k :: 0 <= k < 8 && EmittedFrom(c)[k].at == b
    ensures forall j, k :: 0 <= j < k < 8 ==> EmittedFrom(c)[j].at != EmittedFrom(c)[k].at
  {
    if IsMooreNeighbour(c.at, b) {
      var k :=
        if b.x == c.at.x - 1 then (if b.y == c.at.y - 1 then 0 else if b.y == c.at.y then 1 else 2)
        else if b.x == c.at.x then (if b.y == c.at.y - 1 then 3 else 4)
        else (if b.y == c.at.y - 1 then 5 else if b.y == c.at.y then 6 else 7);
      assert EmittedFrom(c)[k].at == b;
    }
  }

  /** Full emitted risk for a severity-3 seed: 100 * 0.85 = 85 on all eight rows. */
  lemma SeverityThreeSeedEmitsEight(id: string, at: Coord)
    ensures var s := Cell(id, at, Some(100.0), Some(0.85));
            |EmittedFrom(s)| == 8 && forall e :: e in EmittedFrom(s) ==> e.risk == Some(85.0)
  {
  }

  /** 25 * 0.7 = 17.5 is below the cutoff: nothing is emitted. */
  lemma BelowCutoffEmitsNothing(id: string, at: Coord)
    ensures EmittedFrom(Cell(id, at, Some(25.0), Some(0.7))) == []
  {
  }

  /** Two neighbouring sources both emit a row at a shared neighbour: no merging. */
  lemma SharedNeighbourEmittedTwice(id: string)
    ensures var a := Cell(id, Coord(0, 0), Some(100.0), Some(0.85));
            var b := Cell(id, Coord(1, 0), Some(100.0), Some(0.85));
            var out := Emissions([a, b]);
            |out| == 16 && out[4].at == Coord(0, 1) && out[10].at == Coord(0, 1)
  {
    var a := Cell(id, Coord(0, 0), Some(100.0), Some(0.85));
    var b := Cell(id, Coord(1, 0), Some(100.0), Some(0.85));
    assert [a, b][..1] == [a];
    assert [a][..0] == [];
    assert Emits(a) && Emits(b);
    assert Emissions([a]) == Emissions([]) + EmittedFrom(a);
    assert Emissions([a, b]) == Emissions([a]) + EmittedFrom(b);
  }

  /** The handler's nested loops, collecting the emitted rows in order. */
  method CollectEmissions(cells: seq<Cell>) returns (out: seq<Cell>)
    ensures out == Emissions(cells)
  {
    out := [];
    var i := 0;
    while i < |cells|
      invariant 0 <= i <= |cells|
      invariant out == Emissions(cells[..i])
    {
      var c := cells[i];
      var k := 0;
      while k < |Moore|
        invariant 0 <= k <= |Moore|
        invariant out == Emissions(cells[..i]) + EmittedUpTo(c, k)
      {
        var risk := OrZero(c.risk) * OrZero(c.decay);
        assert risk == NextRisk(c);
        if !(risk < CUTOFF) {
          out := out + [Cell(c.incident, Shift(c.at, Moore[k]), Some(risk), c.decay)];
          assert EmittedUpTo(c, k + 1) == EmittedUpTo(c, k) + [Emitted(c, k)];
        }
        k := k + 1;
      }
      assert cells[..i + 1][..i] == cells[..i];
      i := i + 1;
    }
    assert cells[..i] == cells;
  }

  /**
   * The propagate-risk tick: all current rows are read, the emitted rows are
   * appended in one insert, and an empty table is left as it is.
   */
  method PropagateRisk(db: Store) returns (inserted: nat)
    modifies db
    ensures db.cells == old(db.cells) + Emissions(old(db.cells))
    ensures inserted == |Emissions(old(db.cells))| == 8 * EmitterCount(old(db.cells))
    ensures db.incidents == old(db.incidents) && db.alerts == old(db.alerts)
  {
    EmissionCount(db.cells);
    var cells := db.cells;
    if |cells| == 0 {
      return 0;
    }
    var out := CollectEmissions(cells);
    if |out| > 0 {
      db.cells := db.cells + out;
    }
    inserted := |out|;
  }
}
