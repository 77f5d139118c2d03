/**
 * Severity escalation by elapsed time.  The rule looks at the elapsed
 * minutes as a real quotient and compares strictly, checking the
 * two-minute branch before the one-minute branch.
 */
module Escalation {
  import opened Model

  const MS_PER_MINUTE: int := 60000

  function Minutes(elapsed: int): real
  {
    elapsed as real / MS_PER_MINUTE as real
  }

  /** The severity an incident of the given severity has after `elapsed` milliseconds. */
  function NextSeverity(severity: int, elapsed: int): (s: int)
    ensures severity <= s
    ensures s == severity || s == 2 || s == 3
  {
    if Minutes(elapsed) > 2.0 && severity < 3 then 3
    else if Minutes(elapsed) > 1.0 && severity < 2 then 2
    else severity
  }

  /** The rule in integer milliseconds: the strict thresholds are 120000 and 60000. */
  lemma NextSeverityInMilliseconds(severity: int, elapsed: int)
    ensures elapsed > 120000 && severity < 3 ==> NextSeverity(severity, elapsed) == 3
    ensures 60000 < elapsed <= 120000 && severity < 2 ==> NextSeverity(severity, elapsed) == 2
    ensures elapsed <= 60000 ==> NextSeverity(severity, elapsed) == severity
    ensures elapsed <= 120000 && severity >= 2 ==> NextSeverity(severity, elapsed) == severity
  {
  }

  /** Applying the rule again at the same instant changes nothing. */
  lemma NextSeverityIdempotent(severity: int, elapsed: int)
    ensures NextSeverity(NextSeverity(severity, elapsed), elapsed) == NextSeverity(severity, elapsed)
  {
  }

  /** A later instant never yields a lower severity. */
  lemma NextSeverityMonotoneInTime(severity: int, e1: int, e2: int)
    requires e1 <= e2
    ensures NextSeverity(severity, e1) <= NextSeverity(severity, e2)
  {
    assert Minutes(e1) <= Minutes(e2);
  }

  /** An incident active for 125 seconds at severity 1 goes straight to 3. */
  lemma SkipsSeverityTwo()
    ensures NextSeverity(1, 125000) == 3
  {
  }

  /** The row an escalation tick leaves: only active non-intrusion incidents move. */
  function Escalated(inc: Incident, now: int): (r: Incident)
    ensures r.(severity := inc.severity) == inc
    ensures inc.severity <= r.severity
    ensures inc.kind == Intrusion || inc.status != Active ==> r == inc
    ensures inc.status == Active && inc.kind != Intrusion ==> r.severity == NextSeverity(inc.severity, now - inc.startedAt)
  {
    if inc.status == Active && inc.kind != Intrusion then
      inc.(severity := NextSeverity(inc.severity, now - inc.startedAt))
    else inc
  }

  /** An escalation tick at a fixed instant is idempotent on every row. */
  lemma EscalatedIdempotent(inc: Incident, now: int)
    ensures Escalated(Escalated(inc, now), now) == Escalated(inc, now)
  {
    NextSeverityIdempotent(inc.severity, now - inc.startedAt);
  }

  /** Number of rows whose severity a tick at `now` changes: the updates it issues. */
  function ChangedCount(incs: seq<Incident>, now: int): (n: nat)
    ensures n <= |incs|
  {
    if incs == [] then 0
    else ChangedCount(incs[..|incs| - 1], now) + (if Escalated(incs[|incs| - 1], now) != incs[|incs| - 1] then 1 else 0)
  }

  /** `update({severity}).eq("incident_id", id)`: every row with that id gets the severity. */
  function SetSeverity(incs: seq<Incident>, id: string, severity: int): (r: seq<Incident>)
  {
    seq(|incs|, j requires 0 <= j < |incs| =>
      if incs[j].id == id then incs[j].(severity := severity) else incs[j])
  }

  /** With unique ids the update by id touches exactly one row. */
  lemma SetSeverityAt(incs: seq<Incident>, j: int, severity: int)
    requires 0 <= j < |incs|
    requires forall a, b :: 0 <= a < b < |incs| ==> incs[a].id != incs[b].id
    ensures SetSeverity(incs, incs[j].id, severity) == incs[j := incs[j].(severity := severity)]
  {
    var r := SetSeverity(incs, incs[j].id, severity);
    forall k | 0 <= k < |incs|
      ensures r[k] == incs[j := incs[j].(severity := severity)][k]
    {
      if k < j {
        assert incs[k].id != incs[j].id;
      } else if j < k {
        assert incs[j].id != incs[k].id;
      }
    }
  }

  /**
   * The escalation tick.  Every active incident that is not an intrusion is
   * re-rated by `NextSeverity`, and an update is written only when its
   * severity changes; `writes` counts those updates.
   */
  method EscalateIncidents(db: Store, now: int) returns (writes: nat)
    requires db.Valid()
    modifies db
    ensures db.Valid()
    ensures |db.incidents| == |old(db.incidents)|
    ensures forall j :: 0 <= j < |db.incidents| ==> db.incidents[j] == Escalated(old(db.incidents)[j], now)
    ensures writes == ChangedCount(old(db.incidents), now)
    ensures db.cells == old(db.cells) && db.alerts == old(db.alerts)
  {
    ghost var before := db.incidents;
    writes := 0;
    var i := 0;
    while i < |db.incidents|
      invariant 0 <= i <= |db.incidents| == |before|
      invariant db.Valid()
      invariant forall j :: 0 <= j < i ==> db.incidents[j] == Escalated(before[j], now)
      invariant forall j :: i <= j < |before| ==> db.incidents[j] == before[j]
      invariant writes == ChangedCount(before[..i], now)
      invariant db.cells == old(db.cells) && db.alerts == old(db.alerts)
    {
      assert before[..i + 1][..i] == before[..i];
      var inc := db.incidents[i];
      if inc.status == Active && inc.kind != Intrusion {
        var severity := NextSeverity(inc.severity, now - inc.startedAt);
        if severity != inc.severity {
          SetSeverityAt(db.incidents, i, severity);
          db.incidents := SetSeverity(db.incidents, inc.id, severity);
          writes := writes + 1;
        }
      }
      i := i + 1;
    }
    assert before[..i] == before;
  }
}
