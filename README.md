# Incident simulation engine — a Dafny model

This project models the simulation core of a neighbourhood safety
dashboard. Residents report fire, gas or intrusion incidents at their
household. Fire and gas incidents seed a burning cell on a 50 m grid, and
two periodic ticks spread it:

- **decay propagation** emits `risk × decay` to the eight Moore neighbours,
  with a cutoff of 20;
- **wave expansion** grows each active incident's cells into absent von
  Neumann neighbours. Admission depends on severity and a random draw.

An escalation tick raises severity with elapsed time. An intrusion fans
out alerts to every household within 120 m and flags the origin. Resolve
and reset clear state. The map converts cells back to rectangles, computes
each house's fire risk and picks its colour.

The store is the class `Model.Store`. It holds three mutable tables
(`incidents`, `cells`, `alerts`) as sequences and the households as
read-only reference data. Each route handler is a method that modifies the
store. Its contract ties the new tables to pure specification functions of
the old ones. The properties the code promises are proved as lemmas about
those functions.

Modelling choices:

- Time is integer milliseconds, and `now` is a parameter.
- Coordinates and risks are exact reals. Distances are compared squared.
- The random source is an injected stream `draw: nat -> real`. The n-th
  draw of a wave tick is `draw(n)`.
- A database column left unset (wave cells have no risk or decay) is
  `None`. It counts as 0 in arithmetic and comparisons, as `null` does.
- The id the store generates for a new incident is a parameter. `None`
  means the insert failed. `Store.Valid()` states that incident ids are
  unique.
- The origin lookup uses `.single()`. It succeeds only when exactly one
  household has the node id.
- The escalation and wave handlers select the active incidents with no
  `.order` (app/api/escalate-incidents/route.ts:11-14,
  app/api/propagate-wave/route.ts:18-21), so the store's order is
  unspecified. The model takes it to be table order. It visits the whole
  incident table in that order and skips non-active rows, which gives the
  same result because statuses do not change during either tick. For the
  wave tick the order matters: it decides which draws each incident gets
  and the order in which rows are appended.
- Reset deletes alerts and cells through `neq` filters
  (app/api/reset-incidents/route.ts:18-27). They spare rows whose node id
  is a literal sentinel and cells with `cell_x == -999999`.
- The report response carries only `affectedCount`.
- The escalation handler returns no count. The model returns the number
  of updates it issues.

## Model

| member | source | states |
|---|---|---|
| Grid.ToGrid | app/api/report-incident/route.ts:101-108 | The cell of a point is the floor of its offset from the anchor in cell units. Longitude gives x at 111320 m/°, latitude gives y at 110540 m/°, and cells are 50 m. |
| Grid.CellToBounds | app/components/MapView.tsx:81-95 | The south-west corner of cell (gx, gy) sits exactly gx and gy cell units from the anchor. The north-east corner is one cell further on each axis. |
| Grid.BoundsRoundTrip | app/components/MapView.tsx:132-138 | Every point of the half-open rectangle of a cell maps back to that cell under the house-to-grid mapping. |
| Grid.CentreRoundTrip | app/components/MapView.tsx:85-89 | The centre of a cell's rectangle maps back to the cell. |
| Escalation.NextSeverity | app/api/escalate-incidents/route.ts:25-31 | The new severity is never lower than the old one. It is the old value, 2 or 3. |
| Escalation.NextSeverityInMilliseconds | app/api/escalate-incidents/route.ts:21-31 | Elapsed > 120000 ms with severity < 3 gives 3, even from 1. 60000 < elapsed ≤ 120000 with severity < 2 gives 2. Elapsed ≤ 60000 changes nothing (strict comparison), and so does elapsed ≤ 120000 with severity ≥ 2. |
| Escalation.NextSeverityIdempotent | app/api/escalate-incidents/route.ts:25-31 | Re-applying the rule at the same instant changes nothing. |
| Escalation.NextSeverityMonotoneInTime | app/api/escalate-incidents/route.ts:27-31 | A later instant never gives a lower severity. |
| Escalation.SkipsSeverityTwo | app/api/escalate-incidents/route.ts:27-28 | Severity 1 at 125 s becomes 3 directly. |
| Escalation.Escalated | app/api/escalate-incidents/route.ts:19-31 | A tick changes only the severity field and never lowers it. An active non-intrusion incident gets `NextSeverity` of its severity and the time since it started. Intrusions and non-active incidents are unchanged. |
| Escalation.EscalatedIdempotent | app/api/escalate-incidents/route.ts:16-39 | Two ticks at the same instant equal one. |
| Escalation.ChangedCount | app/api/escalate-incidents/route.ts:33-38 | The number of rows a tick changes, which is the number of updates issued. It is at most the number of rows. |
| Escalation.SetSeverity | app/api/escalate-incidents/route.ts:34-37 | Defines the update by id: every row with the id gets the new severity, and other rows are unchanged. SetSeverityAt states what it does when ids are unique. |
| Escalation.SetSeverityAt | app/api/escalate-incidents/route.ts:34-37 | With unique ids, the update filtered by id changes exactly the one row with that id. |
| Escalation.EscalateIncidents | app/api/escalate-incidents/route.ts:9-41 | Row j becomes `Escalated(old row j)`. The number of updates written is the number of rows whose severity changes. Cells and alerts are untouched, and ids stay unique. |
| Decay.NextRisk | app/api/propagate-risk/route.ts:30 | Defines the offered risk as `risk_level × decay_factor`, with an absent column counting as 0. |
| Decay.Emits | app/api/propagate-risk/route.ts:32 | Defines when a cell emits: its offered risk is not below the cutoff 20. |
| Decay.EmittedFrom | app/api/propagate-risk/route.ts:23-41 | Defines one cell's rows: eight, in neighbour order, each with the offered risk and the source's incident and decay, or none when it does not emit. EmittedFromCoversMoore states their positions. |
| Decay.Emissions | app/api/propagate-risk/route.ts:18-42 | Defines all rows of a tick as the sources' rows concatenated in table order. EmissionCount and EmissionSource state their number and origin. |
| Decay.EmissionCount | app/api/propagate-risk/route.ts:18-42 | A tick emits exactly 8 × (number of cells with risk × decay ≥ 20) rows. |
| Decay.EmissionSource | app/api/propagate-risk/route.ts:29-40 | Every emitted row comes from a table cell with risk × decay ≥ 20. It has that product as risk (so risk ≥ 20) and inherits the cell's incident and decay. It sits at a Moore neighbour, never at the source coordinate. |
| Decay.EmittedFromCoversMoore | app/api/propagate-risk/route.ts:23-37 | An emitting cell's eight rows sit at exactly its eight Moore neighbours, no two at the same place. |
| Decay.SeverityThreeSeedEmitsEight | app/api/propagate-risk/route.ts:30-40 | A cell with risk 100 and decay 0.85 emits 8 rows, each with risk 85. |
| Decay.BelowCutoffEmitsNothing | app/api/propagate-risk/route.ts:30-32 | A cell with risk 25 and decay 0.7 (product 17.5) emits nothing. |
| Decay.SharedNeighbourEmittedTwice | app/api/propagate-risk/route.ts:34-41 | Two adjacent sources each emit a row at a common neighbour. Nothing is merged. |
| Decay.CollectEmissions | app/api/propagate-risk/route.ts:18-42 | The nested loops collect exactly `Emissions(cells)`, in source order. |
| Decay.PropagateRisk | app/api/propagate-risk/route.ts:9-48 | The cell table becomes old ++ emissions of all old cells, whatever the incident's status. An empty table is unchanged. The inserted count is 8 × emitters. Incidents and alerts are untouched. |
| Wave.Chance | app/api/propagate-wave/route.ts:56-61 | The chance is 0.6 at severity 1 and 0.8 at severity 2. It lies in (0, 1], and is 1 exactly when severity is neither 1 nor 2. |
| Wave.Candidates | app/api/propagate-wave/route.ts:44-50 | Four candidates per frontier cell. |
| Wave.CandidateAt | app/api/propagate-wave/route.ts:44-50 | Candidate 4i+k is frontier cell i shifted by the k-th von Neumann offset, in the handler's order. |
| Wave.CandidateAdjacent | app/api/propagate-wave/route.ts:46-50 | Every candidate is at distance 1 from some frontier cell. |
| Wave.Visit | app/api/propagate-wave/route.ts:52-70 | Defines one candidate's visit: a present candidate is skipped without a draw, and an absent one takes the next draw and is admitted when the draw is at most the chance. VisitDrawRule states this as a contract. |
| Wave.Expand | app/api/propagate-wave/route.ts:44-72 | Defines the expansion as the visits of the candidates in order, from the initial presence set. ExpandSound states what it admits. |
| Wave.CoordSet | app/api/propagate-wave/route.ts:38-40 | Defines the presence set as the coordinates of the incident's cells. |
| Wave.VisitDrawRule | app/api/propagate-wave/route.ts:52-70 | A draw is consumed exactly when the candidate is absent. An absent candidate is admitted exactly when its draw is ≤ chance. |
| Wave.ExpandSound | app/api/propagate-wave/route.ts:38-70 | The presence set equals the initial set plus the admitted cells. Admitted cells are absent from the initial set, pairwise distinct and drawn from the candidates. There is at most one draw per candidate. |
| Wave.ExpandAdmitsAll | app/api/propagate-wave/route.ts:56-70 | With chance 1 and every draw < 1, every candidate is present at the end. |
| Wave.ExpandRejectsAll | app/api/propagate-wave/route.ts:63-70 | When every draw exceeds the chance, nothing is admitted. |
| Wave.ExpandFrontier | app/api/propagate-wave/route.ts:38-72 | The loop over the initial cells and their four neighbours returns exactly the admitted cells and draw count of `Expand`. |
| Wave.VisitNeighbours | app/api/propagate-wave/route.ts:46-71 | The inner loop advances `Expand` by the four candidates of one frontier cell. |
| Wave.VisitOne | app/api/propagate-wave/route.ts:52-70 | One candidate is skipped, or drawn for and admitted or rejected, as `Visit` states. |
| Wave.ExpandFrontierSound | app/api/propagate-wave/route.ts:44-69 | New cells are von Neumann neighbours of old cells of the incident. None coincides with an old cell, and no two coincide. There are at most 4 × (number of old cells). |
| Wave.FullChanceAdmitsAll | app/api/propagate-wave/route.ts:56-70 | For severity 3 or any severity other than 1 and 2, with draws in [0, 1), every von Neumann neighbour of every old cell is present afterwards. |
| Wave.SingleCellFullWave | app/api/propagate-wave/route.ts:9-14 | One severity-3 cell at the origin grows (1,0), (-1,0), (0,1), (0,-1), in that order. |
| Wave.Tagged | app/api/propagate-wave/route.ts:64-68 | Inserted rows carry the incident id and coordinates only, with no risk and no decay. |
| Wave.CoordsOf | app/api/propagate-wave/route.ts:31-39 | The presence keys are exactly the coordinates of the incident's rows. |
| Wave.IncidentStep | app/api/propagate-wave/route.ts:27-76 | Defines one incident's step. It skips intrusions, inactive incidents and incidents without cells. Otherwise it reads the incident's current cells, expands them and appends the admitted cells. |
| Wave.WaveTick | app/api/propagate-wave/route.ts:18-77 | Defines the tick as the incidents' steps in table order, threading the cell table and the draw index. |
| Wave.StepAdded | app/api/propagate-wave/route.ts:42-72 | Defines the cells one incident's step admits: `Expand`'s added cells, or none when the incident is skipped. |
| Wave.StepSound | app/api/propagate-wave/route.ts:27-76 | One step appends its admitted cells. They are new to the incident, pairwise distinct, adjacent to its cells and at most four per cell. Every other incident keeps its cells. |
| Wave.RestAddsOthers | app/api/propagate-wave/route.ts:27-77 | With unique ids, the later incidents of a tick add no rows to an earlier incident. |
| Wave.WaveTickSound | app/api/propagate-wave/route.ts:18-77 | With unique ids, over the whole tick and measured against the cells present when it started: every new row is new to its incident and adjacent to one of the incident's cells. No two new rows of one incident share a cell, and each incident at most quintuples. |
| Wave.WaveTickAppends | app/api/propagate-wave/route.ts:18-77 | A tick keeps the old rows in place. Every new row is a coordinate-only cell of an active, non-intrusion incident. |
| Wave.SkippedIncidentAddsNothing | app/api/propagate-wave/route.ts:29-36 | An intrusion, an inactive incident or an incident with no cells adds nothing and takes no draw. |
| Wave.ExpandIncident | app/api/propagate-wave/route.ts:27-76 | One incident's processing, including skipping the insert when nothing was admitted, equals `IncidentStep`. |
| Wave.PropagateWave | app/api/propagate-wave/route.ts:16-79 | With unique incident ids, the new cell table and the number of draws taken equal `WaveTick` over the incident table. Every new row is new to its incident and adjacent to one of the incident's cells from before the tick. Incidents and alerts are untouched. |
| Report.SeverityConfig | app/api/report-incident/route.ts:93-99 | Severities 1, 2 and 3 give (40, 0.6), (70, 0.75) and (100, 0.85). Any other severity gives (40, 0.6). Decay lies in (0, 1). |
| Report.SeverityConfigOrdered | app/api/report-incident/route.ts:93-97 | Across severities 1 to 3, both risk and decay are non-decreasing. |
| Report.Lookup | app/api/report-incident/route.ts:18-29 | The origin is found exactly when one household has the node id. It is that household. |
| Report.Within | app/api/report-incident/route.ts:69-73 | Defines the alert radius test: the squared metre offset from the origin is at most 120². |
| Report.AlertRows | app/api/report-incident/route.ts:67-83 | There is one alert per household with dx² + dy² ≤ 120² (boundary included) and none for any other. Each alert carries the incident id. `confirmed` holds iff the node is the origin id. |
| Report.AlertCount | app/api/report-incident/route.ts:85-90 | `affectedCount` equals the number of households in range. |
| Report.AlertRowsConcat | app/api/report-incident/route.ts:67-83 | The fan-out commutes with concatenation, so alerts follow household order. |
| Report.OriginAlerted | app/api/report-incident/route.ts:69-77 | The origin always receives a confirmed alert, so the count is ≥ 1. |
| Report.SeedCell | app/api/report-incident/route.ts:101-116 | The seed sits at the origin's grid cell and carries the severity's risk and decay. |
| Report.SeedEmits | app/api/report-incident/route.ts:93-116 | Every seeded cell reaches the cutoff: it emits 8 rows at the next decay tick. |
| Report.ReportIncident | app/api/report-incident/route.ts:13-121 | An unknown or ambiguous origin gives 404, and a failed incident insert gives 500; in both cases nothing is written. Otherwise the incident is appended as active at `now` with the given fields. An intrusion appends its alert rows, seeds no cell and reports their count. Any other type appends one seed cell and reports 1. |
| Resolve.Falsy | app/api/resolve-incident/route.ts:13 | Defines a falsy id: absent or empty. |
| Resolve.MarkResolved | app/api/resolve-incident/route.ts:21-27 | Rows with the id become resolved at `now`, with no other field changed. All other rows are unchanged. |
| Resolve.DeleteCellsOf | app/api/resolve-incident/route.ts:30-33 | The surviving cells are exactly the cells of other incidents. |
| Resolve.UnknownIdChangesNothing | app/api/resolve-incident/route.ts:21-27 | An id that no incident has changes no incident. |
| Resolve.DeleteCellsIdempotent | app/api/resolve-incident/route.ts:30-33 | Deleting the same incident's cells twice equals deleting them once. |
| Resolve.DeleteCellsKeepsOrder | app/api/resolve-incident/route.ts:30-33 | The delete commutes with concatenation, so other incidents' cells stay in order. |
| Resolve.DeleteAbsentCellsChangesNothing | app/api/resolve-incident/route.ts:30-33 | An incident without cells leaves the cell table as it is. |
| Resolve.ResolveIncident | app/api/resolve-incident/route.ts:9-37 | A missing or empty id gives 400 and changes nothing. Otherwise the handler resolves that incident and deletes its cells, and returns 200. Alerts are never touched. |
| Reset.ResolveActive | app/api/reset-incidents/route.ts:12-15 | Afterwards no incident is active. Only `status` changes: `resolved_at` is not set, and non-active rows are untouched. No row is deleted. |
| Reset.ClearAlerts | app/api/reset-incidents/route.ts:18-21 | Only alerts whose node id is the literal `___never_match___` survive. |
| Reset.ClearCells | app/api/reset-incidents/route.ts:24-27 | Only cells with `cell_x == -999999` survive. |
| Reset.ResetIdempotent | app/api/reset-incidents/route.ts:12-27 | A second reset leaves all three tables as the first left them. |
| Reset.ResetEmpties | app/api/reset-incidents/route.ts:18-27 | Without sentinel rows, the alert and cell tables become empty. |
| Reset.ResetIncidents | app/api/reset-incidents/route.ts:9-29 | The three tables become `ResolveActive`, `ClearAlerts` and `ClearCells` of the old ones. |
| MapView.HouseCell | app/components/MapView.tsx:132-138 | Defines a house's grid cell as `ToGrid` of its position, the mapping that seeds incidents. |
| MapView.InfluenceRadius | app/components/MapView.tsx:147-149 | The radius is 3 iff risk > 70 and 1 iff risk ≤ 40; otherwise it is 2. |
| MapView.InfluenceRadiusMonotone | app/components/MapView.tsx:147-149 | The radius is non-decreasing in risk. |
| MapView.InRange | app/components/MapView.tsx:143-151 | Defines the range test: the squared cell distance is at most the square of the cell's influence radius. |
| MapView.MaxFireRisk | app/components/MapView.tsx:132-160 | Distances are measured from the house's grid cell, `HouseCell`. The result is ≥ 0 and at least every in-range cell's adjusted risk. It is 0 or the adjusted risk of some in-range cell. So it is 0 when no cell is in range, and otherwise the maximum with 0. |
| MapView.FindAlert | app/components/MapView.tsx:130 | The result is the first alert whose node id matches, or none iff no alert matches. |
| MapView.IsIntrusionAlert | app/components/MapView.tsx:165-169 | Defines an intrusion alert: there is an alert, its joined incidents are non-empty, and the first is an intrusion. |
| MapView.HouseColour | app/components/MapView.tsx:162-182 | An intrusion alert decides alone: purple iff confirmed, otherwise yellow. Otherwise the colour is red for > 75, orange for (45, 75] and green for ≤ 15. Yellow is left for (15, 45]. |
| MapView.FireColourMonotone | app/components/MapView.tsx:176-182 | Without an intrusion alert, more fire risk never gives a milder colour. |
| MapView.ServedAlertAsWritten | app/api/get-active-alerts/route.ts:10-16 | The served alert keeps the node id but reads as unconfirmed, because `confirmed` is not selected. Joined as an array it carries the incident type. Joined as an object it fails the map's intrusion test. |
| MapView.ServedAlert | app/api/get-active-alerts/route.ts:10-16 | The corrected projection keeps the node id, `confirmed` and the incident type. |
| MapView.OriginNeverPurpleAsWritten | app/components/MapView.tsx:165-175 | As written, the origin of a reported intrusion has a confirmed alert but is never drawn purple, whatever the join's shape. With the incident joined as an array it is drawn yellow. |
| MapView.OriginDrawnPurple | app/components/MapView.tsx:165-175 | With `confirmed` served and the incident joined as an array, the origin is drawn purple and every other alerted household yellow, whatever the fire risk. |

## Findings

| source | as written | input that shows it | evidently intended | confidence | as-written member | corrected member |
|---|---|---|---|---|---|---|
| app/api/get-active-alerts/route.ts:13-16 | The active-alerts query selects only `node_id` and the joined incident, but the map reads `alert.confirmed` (app/components/MapView.tsx:171) to pick purple for the origin | Any intrusion report: the origin's alert row has `confirmed = true`, but the map receives it without that field and never draws the origin purple (yellow if the incident is joined as an array, by fire risk if as an object) | The origin of an intrusion is drawn purple, as the map's colour rule and the `confirmed` flag written at report time intend. The fix also needs the incident joined as an array, as the map's type at app/components/MapView.tsx:27-33 declares | medium, not executed | MapView.OriginNeverPurpleAsWritten | MapView.OriginDrawnPurple |

## Left out

- Store failures: reads that return no data (the `!incidents` and `!allHouseholds` branches) and the catch-all 500 responses are not modelled. The only failure modelled is the failed incident insert. Errors of the alert and cell inserts are ignored by the source and always succeed in the model.
- Escalation.EscalateIncidents: reads one `now` for the whole tick, where the source reads the clock once per incident.
- The statistical admission rate of `Math.random`: draws are an injected stream, and no claim is made about their distribution.
- IEEE-754 rounding in the grid conversion, the risk product and the distance: all arithmetic is on exact reals, and `Math.sqrt` is replaced by squared comparisons.
- MapView.ServedAlertAsWritten: the store's shape for the incident joined through the alert's many-to-one link is not fixed by the source. The model takes it as a parameter: a one-element array, as app/components/MapView.tsx:27-33 declares, or a single object, which fails `Array.isArray` at app/components/MapView.tsx:167. MapView.ServedAlert and MapView.OriginDrawnPurple assume the array shape.
- MapView.MaxFireRisk: treats `risk_level × decay_factor^distance` as an uninterpreted function of the cell and the squared cell distance, because `Math.pow` with a real exponent is not modelled.
- The incident type is one of fire, gas or intrusion. The source accepts any string, and any type other than intrusion behaves like fire.
- Concurrent route invocations: each tick is atomic.
- ISO timestamp strings: times are integer milliseconds.
- Request parsing, response bodies and messages, the read-only list endpoints, page polling and Leaflet rendering are not part of this model. The active-alerts query appears only as the projection of one alert row that the map receives.
