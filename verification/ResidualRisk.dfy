/** Residual risk: what the derivation promises, and that every endpoint keeps it in step with severity and control. */
module ResidualRisk {
  import opened Wrappers
  import opened DisplayIds
  import opened PyText
  import opened Threats
  import opened Reconcile
  import opened ThreatCatalog
  import opened ThreatSteps
  import opened ThreatRuns

  // ---- The derivation ----

  /** Risk levels in order; unknown ones rank lowest. */
  function Level(risk: string): nat {
    if risk == "Critical" then 4
    else if risk == "High" then 3
    else if risk == "Medium" then 2
    else if risk == "Low" then 1 else 0
  }

  function Strength(control: string): nat {
    if control == "full" then 3 else if control == "substantial" then 2 else if control == "partial" then 1 else 0
  }

  predicate Severity(s: string) {
    s == "Critical" || s == "High" || s == "Medium" || s == "Low"
  }

  /** A control never raises the risk, none leaves it at the severity, and a stronger one leaves no more. */
  lemma ControlsOnlyReduce(severity: string, control: string, stronger: string)
    requires Severity(severity)
    ensures Level(DeriveResidual(severity, control)) <= Level(severity)
    ensures DeriveResidual(severity, "none") == severity
    ensures Strength(control) <= Strength(stronger) ==>
              Level(DeriveResidual(severity, stronger)) <= Level(DeriveResidual(severity, control))
  {}

  /** How many levels a control takes off: its strength, from a medium risk half of it rounded up, from a low risk half
      of it rounded down.  An unknown control counts as none, an unknown severity leaves a medium risk. */
  lemma ResidualDrop(severity: string, control: string)
    ensures var r, strength := DeriveResidual(severity, control), Strength(control);
            && r in {"Critical", "High", "Medium", "Low", "Negligible"}
            && (severity == "Critical" || severity == "High" ==> Level(r) == Level(severity) - strength)
            && (severity == "Medium" ==> Level(r) == 2 - (strength + 1) / 2)
            && (severity == "Low" ==> Level(r) == 1 - strength / 2)
            && (!Severity(severity) ==> r == "Medium")
  {}

  lemma NeverBlank(severity: string, control: string)
    ensures DeriveResidual(severity, control) != ""
  {}

  // ---- Over runs ----

  /** No residual risk yet, or the one its severity and control call for. */
  ghost predicate InStep(t: Threat) {
    t.residual == None || t.residual == Some(DeriveResidual(t.severity, t.control))
  }

  /** The row, while it lives, is in step. */
  ghost predicate InStepAt(rows: map<Uuid, Threat>, id: Uuid) {
    id in rows ==> InStep(rows[id])
  }

  /** The request dictates a residual risk for this row. */
  predicate Dictates(r: Request, id: Uuid) {
    r.TriageOne? && r.id == id && r.triage.residual.Some?
  }

  /** A triage that sends none derives it anew - from a new severity or control in any case - or leaves it alone. */
  lemma TriageInStep(t: Threat, b: TriageBody, now: Time)
    requires b.residual == None
    ensures InStep(t) || b.severity.Some? || b.control.Some? ==> InStep(TriagedRow(t, b, now))
  {
    var t' := TriagedRow(t, b, now);
    assert t'.severity == Patch(t.severity, b.severity) && t'.control == Patch(t.control, b.control);
  }

  lemma BulkInStep(t: Threat, b: BulkBody, now: Time)
    ensures InStep(BulkRow(t, b, now)) <==> InStep(t)
  {
    var t' := BulkRow(t, b, now);
    assert t'.severity == t.severity && t'.control == t.control && t'.residual == t.residual;
  }

  lemma QualifyInStep(t: Threat, b: QualifyBody, now: Time)
    ensures InStep(QualifiedRow(t, b, now)) <==> InStep(t)
  {
    var t' := QualifiedRow(t, b, now);
    assert t'.severity == t.severity && t'.control == t.control && t'.residual == t.residual;
  }

  /** Re-analysis derives it anew when the severity changed or none was set. */
  lemma RefreshInStep(t: Threat, gt: Generated)
    ensures InStep(t) || gt.severity != t.severity ==>
              Refreshed(t, gt).residual == Some(DeriveResidual(gt.severity, t.control))
    ensures Refreshed(t, gt).severity == gt.severity && Refreshed(t, gt).control == t.control
  {
    NeverBlank(t.severity, t.control);
  }

  lemma FreshInStep(gt: Generated, now: Time)
    ensures InStep(FreshRow(gt, now)) && FreshRow(gt, now).residual.Some? && InStep(GeneratedRow(gt, now))
  {}

  lemma ManualInStep(catalog: seq<CatalogEntry>, b: ManualBody, displayId: string, now: Time)
    ensures var r := ManualRow(catalog, b, displayId, now); r.Ok? ==> InStep(r.value)
  {}

  /** A row's residual risk is there and the one its severity and control call for. */
  ghost predicate ResidualCurrent(t: Threat) {
    t.residual == Some(DeriveResidual(t.severity, t.control))
  }

  lemma PlacedInStep(before: map<Uuid, Threat>, id: Uuid, gt: Generated, now: Time, t: Threat)
    requires t == if id in before then Refreshed(before[id], gt) else FreshRow(gt, now)
    ensures id in before ==> (InStep(before[id]) || gt.severity != before[id].severity ==> ResidualCurrent(t))
    ensures id !in before ==> ResidualCurrent(t)
  {
    if id in before { RefreshInStep(before[id], gt); } else { FreshInStep(gt, now); }
  }

  /** An analysis leaves every generated row rated that is new, was in step, or changes its severity. */
  lemma AnalyzeInStep(g: Register, gts: seq<Generated>, assign: seq<Uuid>, now: Time, g': Register, id: Uuid)
    requires AnalyzeStep(g, gts, assign, now, g') && id in g'.rows
    ensures IsGenerated(g'.rows[id]) ==>
              (id in g.rows && !InStep(g.rows[id]) && g'.rows[id].severity == g.rows[id].severity)
              || ResidualCurrent(g'.rows[id])
    ensures InStepAt(g.rows, id) ==> InStepAt(g'.rows, id)
  {
    if id in assign {
      var j :| 0 <= j < |assign| && assign[j] == id;
      assert Holds(g.rows, g'.rows, assign[j], gts[j], now);
      PlacedInStep(g.rows, id, gts[j], now, g'.rows[id]);
      if id in g.rows { RefreshInStep(g.rows[id], gts[j]); }
    }
  }

  lemma GenerateInStep(g: Register, gts: seq<Generated>, ids: seq<Uuid>, now: Time, g': Register, id: Uuid)
    requires GenerateStep(g, gts, ids, now, g') && InStepAt(g.rows, id)
    ensures InStepAt(g'.rows, id)
  {
    if id in ids {
      var j :| 0 <= j < |ids| && ids[j] == id;
      FreshInStep(gts[j], now);
    }
  }

  lemma TriageOneInStep(g: Register, at: Uuid, b: TriageBody, now: Time, id: Uuid)
    requires InStepAt(g.rows, id) && (at == id ==> b.residual == None)
    ensures InStepAt(Answer(g, Triage(g, at, b, now)).rows, id)
  {
    if at == id && id in g.rows { TriageInStep(g.rows[id], b, now); }
  }

  lemma StepInStep(d: Digits, catalog: seq<CatalogEntry>, g: Register, r: Request, g': Register, id: Uuid)
    requires Step(d, catalog, g, r, g') && InStepAt(g.rows, id) && !Dictates(r, id)
    ensures InStepAt(g'.rows, id)
  {
    match r
    case Generate(gts, ids, now) => GenerateInStep(g, gts, ids, now, g', id);
    case Analyze(gts, assign, now) => if id in g'.rows { AnalyzeInStep(g, gts, assign, now, g', id); }
    case AddManual(body, _, n, now) => ManualInStep(catalog, body, DisplayId(n), now);
    case TriageOne(at, b, now) => TriageOneInStep(g, at, b, now, id);
    case TriageMany(b, now) => if id in g.rows { BulkInStep(g.rows[id], b, now); }
    case QualifyOne(at, b, now) => if at in g.rows { QualifyInStep(g.rows[at], b, now); }
    case Recluster(_) =>
  }

  /** From any state where a row is in step, or not there yet, it stays in step - through every change of severity
      or control, whatever happens to other rows - until a triage dictates its residual risk. */
  lemma {:induction false} ResidualFollows(d: Digits, catalog: seq<CatalogEntry>, states: seq<Register>,
                                           requests: seq<Request>, id: Uuid, from: nat, i: nat)
    requires Run(d, catalog, states, requests) && from <= i < |states| && InStepAt(states[from].rows, id)
    requires forall j | from <= j < i :: !Dictates(requests[j], id)
    ensures InStepAt(states[i].rows, id)
    decreases i
  {
    if from < i {
      ResidualFollows(d, catalog, states, requests, id, from, i - 1);
      RunStep(d, catalog, states, requests, i - 1);
      StepInStep(d, catalog, states[i - 1], requests[i - 1], states[i], id);
    }
  }

  /** An accepted triage of the row that sends a severity or control and no residual risk. */
  predicate Rederives(r: Request, id: Uuid) {
    && r.TriageOne? && r.id == id && !(r.triage.status == Dismissed && Blank(r.triage.dismissReason))
    && r.triage.residual == None && (r.triage.severity.Some? || r.triage.control.Some?)
  }

  /** What brings a dictated row back in step: a triage that sends a severity or control and no residual risk, or
      an analysis that finds another severity. */
  lemma BackInStep(d: Digits, catalog: seq<CatalogEntry>, g: Register, r: Request, g': Register, id: Uuid)
    requires Step(d, catalog, g, r, g') && id in g.rows && id in g'.rows
    requires Rederives(r, id) || (r.Analyze? && g'.rows[id].severity != g.rows[id].severity)
    ensures InStep(g'.rows[id])
  {
    match r
    case TriageOne(_, b, now) => TriageInStep(g.rows[id], b, now);
    case Analyze(gts, assign, now) => AnalyzeInStep(g, gts, assign, now, g', id);
  }
}
