/**
 * Wave expansion: for every active incident that is not an intrusion, each
 * cell present at the start of the tick offers its four von Neumann
 * neighbours.  A neighbour already in the incident's presence set is
 * skipped without a draw; otherwise one draw is taken and the neighbour is
 * admitted when the draw is at most the severity's expansion chance.  An
 * admitted neighbour joins the presence set at once.
 *
 * The random source is an injected stream `draw`: the n-th draw of the
 * tick is `draw(n)`.
 */
module Wave {
  import opened Model

  /** Neighbour offsets in the order the handler visits them. */
  const VonNeumann: seq<Coord> := [Coord(1, 0), Coord(-1, 0), Coord(0, 1), Coord(0, -1)]

  predicate Adjacent(a: Coord, b: Coord)
  {
    (a.x - b.x) * (a.x - b.x) + (a.y - b.y) * (a.y - b.y) == 1
  }

  /** Admission probability by severity; anything but 1 and 2 always expands. */
  function Chance(severity: int): (p: real)
    ensures 0.0 < p <= 1.0
    ensures p == 1.0 <==> severity != 1 && severity != 2
    ensures severity == 1 ==> p == 0.6
    ensures severity == 2 ==> p == 0.8
  {
    if severity == 1 then 0.6 else if severity == 2 then 0.8 else 1.0
  }

  /** The neighbour candidates of a frontier, cell by cell, in visiting order. */
  function Candidates(frontier: seq<Coord>): (r: seq<Coord>)
    ensures |r| == 4 * |frontier|
  {
    if frontier == [] then []
    else
      var c := frontier[|frontier| - 1];
      Candidates(frontier[..|frontier| - 1])
        + [Shift(c, VonNeumann[0]), Shift(c, VonNeumann[1]), Shift(c, VonNeumann[2]), Shift(c, VonNeumann[3])]
  }

  lemma {:induction false} CandidateAt(frontier: seq<Coord>, i: int, k: int)
    requires 0 <= i < |frontier| && 0 <= k < 4
    ensures Candidates(frontier)[4 * i + k] == Shift(frontier[i], VonNeumann[k])
  {
    var n := |frontier| - 1;
    if i < n {
      CandidateAt(frontier[..n], i, k);
    }
  }

  /** Every candidate is a von Neumann neighbour of some frontier cell. */
  lemma {:induction false} CandidateAdjacent(frontier: seq<Coord>, c: Coord)
    requires c in Candidates(frontier)
    ensures exists i :: 0 <= i < |frontier| && Adjacent(frontier[i], c)
  {
    var m :| 0 <= m < |Candidates(frontier)| && Candidates(frontier)[m] == c;
    var i, k := m / 4, m % 4;
    CandidateAt(frontier, i, k);
    assert Adjacent(frontier[i], c);
  }

  /** State of one incident's expansion: presence set, admitted cells, draws taken. */
  datatype Expansion = Expansion(present: set<Coord>, added: seq<Coord>, used: nat)

  /**
   * The expansion after visiting `cands` in order, starting from the
   * presence set `init` and reading draws from index `start` on.
   */
  function Expand(init: set<Coord>, cands: seq<Coord>, chance: real, draw: nat -> real, start: nat): Expansion
  {
    if cands == [] then Expansion(init, [], 0)
    else Visit(Expand(init, cands[..|cands| - 1], chance, draw, start), cands[|cands| - 1], chance, draw, start)
  }

  /**
   * Visiting one candidate: a present one is skipped without a draw; an
   * absent one takes the next draw and is admitted when it is at most the
   * chance.
   */
  function Visit(e: Expansion, c: Coord, chance: real, draw: nat -> real, start: nat): Expansion
  {
    if c in e.present then e
    else if draw(start + e.used) <= chance then Expansion(e.present + {c}, e.added + [c], e.used + 1)
    else Expansion(e.present, e.added, e.used + 1)
  }

  /** What an expansion guarantees about the cells it admits. */
  ghost predicate Sound(init: set<Coord>, cands: seq<Coord>, e: Expansion)
  {
    && (forall c :: c in e.present <==> c in init || c in e.added)
    && (forall j :: 0 <= j < |e.added| ==> e.added[j] !in init && e.added[j] in cands)
    && (forall i, j :: 0 <= i < j < |e.added| ==> e.added[i] != e.added[j])
    && |e.added| <= e.used <= |cands|
  }

  /**
   * Admitted cells are fresh (absent from the initial presence set), pairwise
   * distinct and drawn from the candidates; at most one draw per candidate.
   */
  lemma {:induction false} ExpandSound(init: set<Coord>, cands: seq<Coord>, chance: real, draw: nat -> real, start: nat)
    ensures Sound(init, cands, Expand(init, cands, chance, draw, start))
  {
    if cands != [] {
      var prefix := cands[..|cands| - 1];
      ExpandSound(init, prefix, chance, draw, start);
      var e := Expand(init, prefix, chance, draw, start);
      var c := cands[|cands| - 1];
      forall j | 0 <= j < |e.added|
        ensures e.added[j] in cands
      {
        assert e.added[j] in prefix;
      }
    }
  }

  /**
   * With chance 1 and every draw below 1, every candidate ends up present:
   * each absent neighbour is admitted.
   */
  lemma {:induction false} ExpandAdmitsAll(init: set<Coord>, cands: seq<Coord>, draw: nat -> real, start: nat)
    requires forall n :: draw(n) < 1.0
    ensures forall c :: c in cands ==> c in Expand(init, cands, 1.0, draw, start).present
  {
    if cands != [] {
      var prefix := cands[..|cands| - 1];
      ExpandAdmitsAll(init, prefix, draw, start);
      forall c | c in cands
        ensures c in Expand(init, cands, 1.0, draw, start).present
      {
        if c != cands[|cands| - 1] {
          assert c in prefix;
        }
      }
    }
  }

  /** When every draw exceeds the chance, nothing is admitted. */
  lemma {:induction false} ExpandRejectsAll(init: set<Coord>, cands: seq<Coord>, chance: real, draw: nat -> real, start: nat)
    requires forall n :: draw(n) > chance
    ensures Expand(init, cands, chance, draw, start).added == []
    ensures Expand(init, cands, chance, draw, start).present == init
  {
    if cands != [] {
      ExpandRejectsAll(init, cands[..|cands| - 1], chance, draw, start);
    }
  }

  /**
   * A draw is taken exactly when the candidate is absent, and an absent
   * candidate is admitted exactly when its draw is at most the chance.
   */
  lemma VisitDrawRule(e: Expansion, c: Coord, chance: real, draw: nat -> real, start: nat)
    ensures Visit(e, c, chance, draw, start).used == if c in e.present then e.used else e.used + 1
    ensures c !in e.present ==>
      (Visit(e, c, chance, draw, start).added == e.added + [c] <==> draw(start + e.used) <= chance)
    ensures c !in e.present && draw(start + e.used) > chance ==> Visit(e, c, chance, draw, start).added == e.added
  {
  }

  lemma ExpandStep(init: set<Coord>, cands: seq<Coord>, m: int, chance: real, draw: nat -> real, start: nat)
    requires 0 <= m < |cands|
    ensures Expand(init, cands[..m + 1], chance, draw, start)
         == Visit(Expand(init, cands[..m], chance, draw, start), cands[m], chance, draw, start)
  {
    assert cands[..m + 1][..m] == cands[..m];
  }

  function CoordSet(frontier: seq<Coord>): set<Coord>
  {
    set c | c in frontier
  }

  /**
   * The per-incident loop: visits each frontier cell's four neighbours,
   * skipping present ones, drawing for the rest and admitting on
   * `draw <= chance`.  Only the cells of `frontier` are expanded.
   */
  method ExpandFrontier(frontier: seq<Coord>, chance: real, draw: nat -> real, start: nat)
    returns (added: seq<Coord>, used: nat)
    ensures Expand(CoordSet(frontier), Candidates(frontier), chance, draw, start).added == added
    ensures Expand(CoordSet(frontier), Candidates(frontier), chance, draw, start).used == used
  {
    var present := CoordSet(frontier);
    ghost var init, cands := present, Candidates(frontier);
    added, used := [], 0;
    var i := 0;
    while i < |frontier|
      invariant 0 <= i <= |frontier|
      invariant Expand(init, cands[..4 * i], chance, draw, start) == Expansion(present, added, used)
    {
      present, added, used := VisitNeighbours(frontier, i, present, added, used, chance, draw, start, init);
      i := i + 1;
    }
    assert cands[..4 * i] == cands;
  }

  /** The inner loop over the four neighbours of frontier cell `i`. */
  method VisitNeighbours(frontier: seq<Coord>, i: nat, present0: set<Coord>, added0: seq<Coord>, used0: nat,
                         chance: real, draw: nat -> real, start: nat, ghost init: set<Coord>)
    returns (present: set<Coord>, added: seq<Coord>, used: nat)
    requires i < |frontier|
    requires Expand(init, Candidates(frontier)[..4 * i], chance, draw, start) == Expansion(present0, added0, used0)
    ensures Expand(init, Candidates(frontier)[..4 * i + 4], chance, draw, start) == Expansion(present, added, used)
  {
    ghost var cands := Candidates(frontier);
    present, added, used := present0, added0, used0;
    var k := 0;
    while k < 4
      invariant 0 <= k <= 4
      invariant Expand(init, cands[..4 * i + k], chance, draw, start) == Expansion(present, added, used)
    {
      var n := Shift(frontier[i], VonNeumann[k]);
      CandidateAt(frontier, i, k);
      ExpandStep(init, cands, 4 * i + k, chance, draw, start);
      present, added, used := VisitOne(n, present, added, used, chance, draw, start);
      k := k + 1;
    }
  }

  /** The loop body for one neighbour `n`. */
  method VisitOne(n: Coord, present0: set<Coord>, added0: seq<Coord>, used0: nat,
                  chance: real, draw: nat -> real, start: nat)
    returns (present: set<Coord>, added: seq<Coord>, used: nat)
    ensures Expansion(present, added, used) == Visit(Expansion(present0, added0, used0), n, chance, draw, start)
  {
    present, added, used := present0, added0, used0;
    if n in present {
      return;
    }
    if draw(start + used) <= chance {
      added := added + [n];
      present := present + {n};
    }
    used := used + 1;
  }

  /** Admitted cells of one incident, von Neumann neighbours of its old cells and new to it. */
  lemma ExpandFrontierSound(frontier: seq<Coord>, chance: real, draw: nat -> real, start: nat)
    ensures var e := Expand(CoordSet(frontier), Candidates(frontier), chance, draw, start);
      && (forall j :: 0 <= j < |e.added| ==> e.added[j] !in frontier)
      && (forall i, j :: 0 <= i < j < |e.added| ==> e.added[i] != e.added[j])
      && (forall j :: 0 <= j < |e.added| ==> exists i :: 0 <= i < |frontier| && Adjacent(frontier[i], e.added[j]))
      && |e.added| <= e.used <= 4 * |frontier|
  {
    var e := Expand(CoordSet(frontier), Candidates(frontier), chance, draw, start);
    ExpandSound(CoordSet(frontier), Candidates(frontier), chance, draw, start);
    forall j | 0 <= j < |e.added|
      ensures exists i :: 0 <= i < |frontier| && Adjacent(frontier[i], e.added[j])
    {
      CandidateAdjacent(frontier, e.added[j]);
    }
  }

  /**
   * Severity 3, or any severity other than 1 and 2: with draws in [0, 1)
   * every neighbour of the frontier is present after the tick.
   */
  lemma FullChanceAdmitsAll(frontier: seq<Coord>, severity: int, draw: nat -> real, start: nat)
    requires severity != 1 && severity != 2
    requires forall n :: 0.0 <= draw(n) < 1.0
    ensures var e := Expand(CoordSet(frontier), Candidates(frontier), Chance(severity), draw, start);
      forall i, k :: 0 <= i < |frontier| && 0 <= k < 4 ==>
        Shift(frontier[i], VonNeumann[k]) in frontier || Shift(frontier[i], VonNeumann[k]) in e.added
  {
    var cands := Candidates(frontier);
    var e := Expand(CoordSet(frontier), cands, 1.0, draw, start);
    ExpandAdmitsAll(CoordSet(frontier), cands, draw, start);
    ExpandSound(CoordSet(frontier), cands, 1.0, draw, start);
    forall i, k | 0 <= i < |frontier| && 0 <= k < 4
      ensures Shift(frontier[i], VonNeumann[k]) in frontier || Shift(frontier[i], VonNeumann[k]) in e.added
    {
      CandidateAt(frontier, i, k);
      assert cands[4 * i + k] in cands;
    }
  }

  /** A single severity-3 cell with admitting draws grows all four neighbours, in visiting order. */
  lemma SingleCellFullWave(draw: nat -> real)
    requires forall n :: 0.0 <= draw(n) < 1.0
    ensures Expand(CoordSet([Coord(0, 0)]), Candidates([Coord(0, 0)]), Chance(3), draw, 0).added
      == [Coord(1, 0), Coord(-1, 0), Coord(0, 1), Coord(0, -1)]
  {
    var a, b, c, d := Coord(1, 0), Coord(-1, 0), Coord(0, 1), Coord(0, -1);
    var init := CoordSet([Coord(0, 0)]);
    var cands := Candidates([Coord(0, 0)]);
    assert init == {Coord(0, 0)};
    assert cands == [a, b, c, d];
    assert cands[..0] == [];
    assert cands[..1][..0] == [];
    assert Expand(init, cands[..1], 1.0, draw, 0) == Expansion(init + {a}, [a], 1);
    assert cands[..2][..1] == cands[..1];
    assert Expand(init, cands[..2], 1.0, draw, 0) == Expansion(init + {a, b}, [a, b], 2);
    assert cands[..3][..2] == cands[..2];
    assert Expand(init, cands[..3], 1.0, draw, 0) == Expansion(init + {a, b, c}, [a, b, c], 3);
    assert cands[..4] == cands;
    assert cands[..3] == cands[..|cands| - 1];
  }

  /** Rows inserted for one incident: coordinates only, no risk or decay. */
  function Tagged(id: string, coords: seq<Coord>): (r: seq<Cell>)
    ensures |r| == |coords|
    ensures forall j :: 0 <= j < |r| ==> r[j] == Cell(id, coords[j], None, None)
  {
    seq(|coords|, j requires 0 <= j < |coords| => Cell(id, coords[j], None, None))
  }

  /** `select * from burning_cells where incident_id = id`, as coordinates. */
  function CoordsOf(cells: seq<Cell>, id: string): (r: seq<Coord>)
    ensures |r| <= |cells|
    ensures forall c :: c in r <==> exists cell :: cell in cells && cell.incident == id && cell.at == c
  {
    if cells == [] then []
    else if cells[0].incident == id then [cells[0].at] + CoordsOf(cells[1..], id)
    else CoordsOf(cells[1..], id)
  }

  predicate Expands(inc: Incident)
  {
    inc.status == Active && inc.kind != Intrusion
  }

  /** The cell table and next draw index after processing one incident. */
  function IncidentStep(inc: Incident, cells: seq<Cell>, draw: nat -> real, next: nat): (seq<Cell>, nat)
  {
    var frontier := CoordsOf(cells, inc.id);
    if !Expands(inc) || frontier == [] then (cells, next)
    else
      var e := Expand(CoordSet(frontier), Candidates(frontier), Chance(inc.severity), draw, next);
      (cells + Tagged(inc.id, e.added), next + e.used)
  }

  /**
   * The whole tick over the incident table: the cell table and the next draw
   * index after processing `incs` in order.
   */
  function WaveTick(incs: seq<Incident>, cells: seq<Cell>, draw: nat -> real, next: nat): (seq<Cell>, nat)
  {
    if incs == [] then (cells, next)
    else
      var step := IncidentStep(incs[0], cells, draw, next);
      WaveTick(incs[1..], step.0, draw, step.1)
  }

  /**
   * A tick only appends: the old rows stay in place, and every new row is a
   * coordinate-only cell of an active non-intrusion incident.
   */
  lemma {:induction false} WaveTickAppends(incs: seq<Incident>, cells: seq<Cell>, draw: nat -> real, next: nat)
    ensures var out := WaveTick(incs, cells, draw, next).0;
      && |cells| <= |out| && out[..|cells|] == cells
      && forall j :: |cells| <= j < |out| ==>
           out[j].risk.None? && out[j].decay.None?
           && exists k :: 0 <= k < |incs| && incs[k].id == out[j].incident && Expands(incs[k])
  {
    if incs != [] {
      var inc := incs[0];
      var step := IncidentStep(inc, cells, draw, next);
      var mid := step.0;
      WaveTickAppends(incs[1..], mid, draw, step.1);
      var out := WaveTick(incs, cells, draw, next).0;
      assert out[..|mid|] == mid;
      assert mid[..|cells|] == cells;
      forall j | |cells| <= j < |out|
        ensures out[j].risk.None? && out[j].decay.None?
        ensures exists k :: 0 <= k < |incs| && incs[k].id == out[j].incident && Expands(incs[k])
      {
        if j < |mid| {
          assert out[j] == mid[j];
          assert incs[0].id == out[j].incident && Expands(incs[0]);
        } else {
          var k :| 0 <= k < |incs[1..]| && incs[1..][k].id == out[j].incident && Expands(incs[1..][k]);
          assert incs[k + 1] == incs[1..][k];
        }
      }
    }
  }

  /** An intrusion, an inactive incident or one without cells adds nothing. */
  lemma SkippedIncidentAddsNothing(inc: Incident, rest: seq<Incident>, cells: seq<Cell>, draw: nat -> real, next: nat)
    requires !Expands(inc) || CoordsOf(cells, inc.id) == []
    ensures WaveTick([inc] + rest, cells, draw, next) == WaveTick(rest, cells, draw, next)
  {
    assert ([inc] + rest)[1..] == rest;
  }

  lemma {:induction false} CoordsOfConcat(a: seq<Cell>, b: seq<Cell>, id: string)
    ensures CoordsOf(a + b, id) == CoordsOf(a, id) + CoordsOf(b, id)
  {
    if a == [] {
      assert a + b == b;
    } else {
      assert (a + b)[1..] == a[1..] + b;
      CoordsOfConcat(a[1..], b, id);
    }
  }

  /** Rows tagged with one id contribute their coordinates to that id and nothing to any other. */
  lemma {:induction false} CoordsOfTagged(tag: string, coords: seq<Coord>, id: string)
    ensures CoordsOf(Tagged(tag, coords), id) == if tag == id then coords else []
  {
    if coords != [] {
      assert Tagged(tag, coords)[1..] == Tagged(tag, coords[1..]);
      CoordsOfTagged(tag, coords[1..], id);
    }
  }

  lemma CoordsOfAbsent(cells: seq<Cell>, id: string)
    requires forall j :: 0 <= j < |cells| ==> cells[j].incident != id
    ensures CoordsOf(cells, id) == []
  {
  }

  /** The coordinates one incident's step admits: `Expand`'s added cells, or none when skipped. */
  function StepAdded(inc: Incident, cells: seq<Cell>, draw: nat -> real, next: nat): seq<Coord>
  {
    var frontier := CoordsOf(cells, inc.id);
    if !Expands(inc) || frontier == [] then []
    else Expand(CoordSet(frontier), Candidates(frontier), Chance(inc.severity), draw, next).added
  }

  /**
   * One incident's step appends its admitted cells, which are new to the
   * incident, pairwise distinct, adjacent to its cells and at most four per
   * cell; every other incident keeps the cells it had.
   */
  lemma StepSound(inc: Incident, cells: seq<Cell>, draw: nat -> real, next: nat)
    ensures var added := StepAdded(inc, cells, draw, next);
      var frontier := CoordsOf(cells, inc.id);
      && IncidentStep(inc, cells, draw, next).0 == cells + Tagged(inc.id, added)
      && (forall j :: 0 <= j < |added| ==> added[j] !in frontier)
      && (forall i, j :: 0 <= i < j < |added| ==> added[i] != added[j])
      && (forall j :: 0 <= j < |added| ==> exists i :: 0 <= i < |frontier| && Adjacent(frontier[i], added[j]))
      && |added| <= 4 * |frontier|
      && CoordsOf(IncidentStep(inc, cells, draw, next).0, inc.id) == frontier + added
      && forall id :: id != inc.id ==> CoordsOf(IncidentStep(inc, cells, draw, next).0, id) == CoordsOf(cells, id)
  {
    var added := StepAdded(inc, cells, draw, next);
    var frontier := CoordsOf(cells, inc.id);
    if Expands(inc) && frontier != [] {
      ExpandFrontierSound(frontier, Chance(inc.severity), draw, next);
    } else {
      assert cells + Tagged(inc.id, added) == cells;
    }
    forall id
      ensures CoordsOf(cells + Tagged(inc.id, added), id) == CoordsOf(cells, id) + (if id == inc.id then added else [])
    {
      CoordsOfConcat(cells, Tagged(inc.id, added), id);
      CoordsOfTagged(inc.id, added, id);
    }
  }

  /**
   * The wave properties over a whole tick, measured against the cells each
   * incident had when the tick started: every new row of an incident is new
   * to it and a von Neumann neighbour of one of its old cells, no two new
   * rows of one incident share a cell, and an incident at most quintuples.
   * Ids must be unique, or a second row with the same id would expand the
   * first one's additions.
   */
  lemma {:induction false} WaveTickSound(incs: seq<Incident>, cells: seq<Cell>, draw: nat -> real, next: nat)
    requires forall i, j :: 0 <= i < j < |incs| ==> incs[i].id != incs[j].id
    ensures var out := WaveTick(incs, cells, draw, next).0;
      && (forall j :: |cells| <= j < |out| ==>
            out[j].at !in CoordsOf(cells, out[j].incident)
            && exists c :: c in CoordsOf(cells, out[j].incident) && Adjacent(c, out[j].at))
      && (forall i, j :: |cells| <= i < j < |out| && out[i].incident == out[j].incident ==> out[i].at != out[j].at)
      && (forall id :: |CoordsOf(out, id)| <= 5 * |CoordsOf(cells, id)|)
  {
    if incs != [] {
      var inc, rest := incs[0], incs[1..];
      var step := IncidentStep(inc, cells, draw, next);
      var mid := step.0;
      var out := WaveTick(rest, mid, draw, step.1).0;
      var added := StepAdded(inc, cells, draw, next);
      var frontier := CoordsOf(cells, inc.id);
      StepSound(inc, cells, draw, next);
      WaveTickSound(rest, mid, draw, step.1);
      WaveTickAppends(rest, mid, draw, step.1);
      RestAddsOthers(inc, rest, mid, draw, step.1);
      forall j | |cells| <= j < |out|
        ensures out[j].at !in CoordsOf(cells, out[j].incident)
        ensures exists c :: c in CoordsOf(cells, out[j].incident) && Adjacent(c, out[j].at)
      {
        if j < |mid| {
          assert out[j] == mid[j] == Cell(inc.id, added[j - |cells|], None, None);
          var i :| 0 <= i < |frontier| && Adjacent(frontier[i], added[j - |cells|]);
          assert frontier[i] in frontier;
        } else {
          assert out[j].incident != inc.id;
        }
      }
      forall i, j | |cells| <= i < j < |out| && out[i].incident == out[j].incident
        ensures out[i].at != out[j].at
      {
        if j < |mid| {
          assert out[i] == mid[i] && out[j] == mid[j];
        }
      }
      forall id
        ensures |CoordsOf(out, id)| <= 5 * |CoordsOf(cells, id)|
      {
        if id == inc.id {
          assert CoordsOf(out, id) == CoordsOf(mid, id);
        }
      }
    }
  }

  /**
   * With unique ids, the rest of a tick after an incident's step adds no rows
   * to that incident: its rows stay as the step left them.
   */
  lemma RestAddsOthers(inc: Incident, rest: seq<Incident>, mid: seq<Cell>, draw: nat -> real, next: nat)
    requires forall k :: 0 <= k < |rest| ==> rest[k].id != inc.id
    ensures var out := WaveTick(rest, mid, draw, next).0;
      && |mid| <= |out| && out[..|mid|] == mid
      && (forall j :: |mid| <= j < |out| ==> out[j].incident != inc.id)
      && CoordsOf(out, inc.id) == CoordsOf(mid, inc.id)
  {
    var out := WaveTick(rest, mid, draw, next).0;
    WaveTickAppends(rest, mid, draw, next);
    var tail := out[|mid|..];
    assert out == mid + tail;
    forall j | |mid| <= j < |out|
      ensures out[j].incident != inc.id
    {
      var k :| 0 <= k < |rest| && rest[k].id == out[j].incident && Expands(rest[k]);
    }
    CoordsOfAbsent(tail, inc.id);
    CoordsOfConcat(mid, tail, inc.id);
  }

  /**
   * The propagate-wave tick.  Incidents are visited in table order; each
   * expanding incident reads its own cells from the current table, expands
   * them, and inserts its admitted cells only when there are any.  Returns
   * the number of draws taken.
   */
  method PropagateWave(db: Store, draw: nat -> real) returns (used: nat)
    requires db.Valid()
    modifies db
    ensures (db.cells, used) == WaveTick(old(db.incidents), old(db.cells), draw, 0)
    ensures db.incidents == old(db.incidents) && db.alerts == old(db.alerts)
    ensures db.Valid()
    ensures forall j :: |old(db.cells)| <= j < |db.cells| ==>
      db.cells[j].at !in CoordsOf(old(db.cells), db.cells[j].incident)
      && exists c :: c in CoordsOf(old(db.cells), db.cells[j].incident) && Adjacent(c, db.cells[j].at)
  {
    used := 0;
    var i := 0;
    while i < |db.incidents|
      invariant 0 <= i <= |db.incidents|
      invariant db.incidents == old(db.incidents) && db.alerts == old(db.alerts)
      invariant WaveTick(db.incidents[i..], db.cells, draw, used) == WaveTick(old(db.incidents), old(db.cells), draw, 0)
    {
      assert db.incidents[i..][1..] == db.incidents[i + 1..];
      used := ExpandIncident(db, db.incidents[i], draw, used);
      i := i + 1;
    }
    WaveTickSound(old(db.incidents), old(db.cells), draw, 0);
  }

  /**
   * The loop body for one incident: skip intrusions, inactive incidents and
   * incidents without cells; otherwise expand the incident's current cells
   * and insert the admitted ones, if any.
   */
  method ExpandIncident(db: Store, inc: Incident, draw: nat -> real, next: nat) returns (used: nat)
    modifies db
    ensures (db.cells, used) == IncidentStep(inc, old(db.cells), draw, next)
    ensures db.incidents == old(db.incidents) && db.alerts == old(db.alerts)
  {
    used := next;
    if inc.status != Active || inc.kind == Intrusion {
      return;
    }
    var frontier := CoordsOf(db.cells, inc.id);
    if |frontier| == 0 {
      return;
    }
    var added, n := ExpandFrontier(frontier, Chance(inc.severity), draw, next);
    if |added| > 0 {
      db.cells := db.cells + Tagged(inc.id, added);
    } else {
      assert db.cells + Tagged(inc.id, added) == db.cells;
    }
    used := next + n;
  }
}
