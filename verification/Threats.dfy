/** A model's threat register: the rows, their audit trail, and what one review request does to them. */
module Threats {
  import opened Wrappers

  type Time = int

  datatype Status = Open | InProgress | Mitigated | Accepted | Dismissed

  /** Generated rows and rows an analyst wrote by hand. */
  datatype Source = Rules | AI | AIRules | Manual

  datatype Threat = Threat(
    displayId: string, description: string, stride: string, subtype: string, severity: string,
    source: Source, status: Status, dismissReason: Option<string>, ruleId: Option<string>,
    aiEnhanced: bool, providerManaged: bool, nodeIds: seq<Uuid>, edgeIds: seq<Uuid>, rationale: Option<string>,
    plan: Option<string>, owner: Option<string>, dueDate: Option<Time>, notes: Option<string>,
    control: string, residual: Option<string>, closedAt: Option<Time>,
    score: Option<int>, autoScore: Option<int>, analystScore: Option<int>, analystRationale: Option<string>,
    note: Option<string>, clusterId: Option<Uuid>, falsePositive: Option<string>, qualifiedAt: Option<Time>,
    createdAt: Time)

  /** Audit rows.  Only triage and qualification entries record the threat's status as old and new value
      of the change itself; the others accompany a triage entry. */
  datatype Entry =
    | Triaged(from: Status, to: Status, reason: string)
    | Qualified(from: Status, to: Status, reason: string)
    | OwnerAssigned(from: Status, to: Status, owner: string)
    | ControlUpdated(from: Status, to: Status, control: string)
    | SeverityUpdated(fromSeverity: string, toSeverity: string)

  /** `audit` holds each live threat's entries in order: the foreign key deletes them with the threat.
      `issued` is every id a threat ever had, so that `uuid4` never hands one out again. */
  datatype Register = Register(rows: map<Uuid, Threat>, audit: map<Uuid, seq<Entry>>, issued: set<Uuid>)

  const EMPTY_REGISTER := Register(map[], map[], {})

  predicate Terminal(s: Status) {
    s == Mitigated || s == Accepted || s == Dismissed
  }

  predicate Blank(s: Option<string>) {
    s == None || s.value == ""
  }

  function OrNone(s: Option<string>): Option<string> {
    if Blank(s) then None else s
  }

  function StatusName(s: Status): string {
    match s
    case Open => "Open"
    case InProgress => "In Progress"
    case Mitigated => "Mitigated"
    case Accepted => "Accepted"
    case Dismissed => "Dismissed"
  }

  function NormalControl(c: string): string {
    if c in {"none", "partial", "substantial", "full"} then c else "none"
  }

  /** `derive_residual_risk_level`. */
  function DeriveResidual(severity: string, control: string): string {
    var c := NormalControl(control);
    if severity == "Critical" then
      if c == "none" then "Critical" else if c == "partial" then "High" else if c == "substantial" then "Medium"
      else "Low"
    else if severity == "High" then
      if c == "none" then "High" else if c == "partial" then "Medium" else if c == "substantial" then "Low"
      else "Negligible"
    else if severity == "Medium" then
      if c == "none" then "Medium" else if c == "full" then "Negligible" else "Low"
    else if severity == "Low" then
      if c == "none" || c == "partial" then "Low" else "Negligible"
    else "Medium"
  }

  /** `round(auto * 0.4 + analyst * 0.6)` clamped to 0..100.  The exact value is a multiple of one fifth,
      so it is never halfway between two integers and rounding is to the nearest. */
  function BlendScores(auto: int, analyst: int): (r: int)
    ensures 0 <= r <= 100
    ensures 0 <= auto <= 100 && 0 <= analyst <= 100 ==> -5 < 10 * r - (4 * auto + 6 * analyst) < 5
  {
    var nearest := (4 * auto + 6 * analyst + 5) / 10;
    if nearest < 0 then 0 else if nearest > 100 then 100 else nearest
  }

  // ---- Triage ----

  datatype TriageBody = TriageBody(
    status: Status, severity: Option<string>, dismissReason: Option<string>, plan: Option<string>,
    owner: Option<string>, dueDate: Option<Time>, notes: Option<string>, control: Option<string>,
    residual: Option<string>)

  function PatchOpt<T>(current: Option<T>, sent: Option<T>): Option<T> {
    if sent.Some? then sent else current
  }

  function TriagedRow(t: Threat, b: TriageBody, now: Time): Threat {
    var severity, control := Patch(t.severity, b.severity), Patch(t.control, b.control);
    t.(status := b.status,
       severity := severity,
       dismissReason := if b.status == Accepted then None else b.dismissReason,
       plan := PatchOpt(t.plan, b.plan), owner := PatchOpt(t.owner, b.owner),
       dueDate := PatchOpt(t.dueDate, b.dueDate), notes := PatchOpt(t.notes, b.notes),
       control := control,
       residual := if b.residual.Some? then b.residual
                   else if b.control.Some? || b.severity.Some? || Blank(t.residual)
                   then Some(DeriveResidual(severity, control))
                   else t.residual,
       closedAt := if Terminal(b.status) then Some(now) else None)
  }

  function TriageReason(b: TriageBody): string {
    if !Blank(b.dismissReason) then b.dismissReason.value
    else if !Blank(b.notes) then b.notes.value
    else "Status changed to " + StatusName(b.status)
  }

  function TriageEntries(t: Threat, b: TriageBody): seq<Entry> {
    [Triaged(t.status, b.status, TriageReason(b))]
    + (if b.owner.Some? && b.owner != t.owner then [OwnerAssigned(t.status, b.status, b.owner.value)] else [])
    + (if b.control.Some? && b.control.value != NormalControl(t.control)
       then [ControlUpdated(t.status, b.status, b.control.value)] else [])
    + (if b.severity.Some? && b.severity.value != t.severity
       then [SeverityUpdated(t.severity, b.severity.value)] else [])
  }

  // ---- Bulk triage ----

  datatype BulkBody = BulkBody(ids: seq<Uuid>, status: Status, dismissReason: Option<string>)

  function BulkRow(t: Threat, b: BulkBody, now: Time): Threat {
    t.(status := b.status,
       dismissReason := if b.status == Dismissed then b.dismissReason else None,
       closedAt := if !Terminal(b.status) then None else if t.closedAt == None then Some(now) else t.closedAt)
  }

  function BulkReason(b: BulkBody): string {
    if !Blank(b.dismissReason) then b.dismissReason.value else "Status changed to " + StatusName(b.status)
  }

  // ---- Qualification ----

  datatype Action = Confirm | Dismiss | Defer

  /** As validated: scores lie in 0..100, an empty rationale has become None, and a dismissal carries
      one of the fixed false-positive reasons. */
  datatype QualifyBody = QualifyBody(
    score: int, action: Action, rationale: Option<string>, falsePositive: Option<string>, note: Option<string>)

  predicate ValidQualify(b: QualifyBody) {
    && 0 <= b.score <= 100 && b.rationale != Some("")
    && (b.action == Dismiss ==> b.falsePositive.Some?)
  }

  function QualifiedRow(t: Threat, b: QualifyBody, now: Time): Threat {
    var auto := if t.autoScore.Some? then t.autoScore.value else if t.score.Some? then t.score.value else 0;
    var scored := t.(analystScore := Some(b.score), analystRationale := b.rationale,
                     note := if b.note.Some? then OrNone(b.note) else t.note,
                     score := Some(BlendScores(auto, b.score)));
    match b.action
    case Dismiss => scored.(status := Dismissed, falsePositive := b.falsePositive, dismissReason := b.rationale,
                            closedAt := Some(now), qualifiedAt := Some(now))
    case Confirm => scored.(qualifiedAt := Some(now))
    case Defer => scored
  }

  function QualifyReason(b: QualifyBody): string {
    if b.rationale.Some? then b.rationale.value
    else if b.action == Dismiss && !Blank(b.falsePositive) then "False-positive reason: " + b.falsePositive.value
    else "Qualification action: "
         + match b.action case Confirm => "confirm" case Dismiss => "dismiss" case Defer => "defer"
  }

  // ---- Requests ----

  datatype ReviewError = NoThreats | MissingReason | UnknownThreat

  function Triage(g: Register, id: Uuid, b: TriageBody, now: Time): Result<Register, ReviewError> {
    if id !in g.rows then Err(UnknownThreat)
    else if b.status == Dismissed && Blank(b.dismissReason) then Err(MissingReason)
    else
      var t := g.rows[id];
      Ok(g.(rows := g.rows[id := TriagedRow(t, b, now)], audit := g.audit[id := Log(g, id) + TriageEntries(t, b)]))
  }

  function Log(g: Register, id: Uuid): seq<Entry> {
    if id in g.audit then g.audit[id] else []
  }

  /** The rows an `id IN (...)` query returns. */
  function Selected(g: Register, ids: seq<Uuid>): set<Uuid> {
    set id | id in ids && id in g.rows
  }

  function BulkRefusal(g: Register, b: BulkBody): Option<ReviewError> {
    if b.ids == [] then Some(NoThreats)
    else if b.status == Dismissed && Blank(b.dismissReason) then Some(MissingReason)
    else if |Selected(g, b.ids)| != |b.ids| then Some(UnknownThreat)
    else None
  }

  function BulkTriage(g: Register, b: BulkBody, now: Time): Result<Register, ReviewError> {
    var refusal := BulkRefusal(g, b);
    if refusal.Some? then Err(refusal.value)
    else
      Ok(g.(rows := map id | id in g.rows :: if id in b.ids then BulkRow(g.rows[id], b, now) else g.rows[id],
            audit := map id | id in g.rows ::
              if id in b.ids then Log(g, id) + [Triaged(g.rows[id].status, b.status, BulkReason(b))] else Log(g, id)))
  }

  function Qualify(g: Register, id: Uuid, b: QualifyBody, now: Time): Result<Register, ReviewError> {
    if id !in g.rows then Err(UnknownThreat)
    else
      var t, t' := g.rows[id], QualifiedRow(g.rows[id], b, now);
      Ok(g.(rows := g.rows[id := t'],
            audit := g.audit[id := Log(g, id) + [Qualified(t.status, t'.status, QualifyReason(b))]]))
  }

  // ---- Bulk triage is all or nothing ----

  lemma {:induction false} SelectedCount(g: Register, ids: seq<Uuid>)
    ensures |Selected(g, ids)| <= |ids|
    ensures |Selected(g, ids)| == |ids| <==>
              (forall i | 0 <= i < |ids| :: ids[i] in g.rows) && (forall i, j | 0 <= i < j < |ids| :: ids[i] != ids[j])
  {
    if ids != [] {
      var init, last := ids[..|ids| - 1], ids[|ids| - 1];
      assert ids == init + [last];
      SelectedCount(g, init);
      if last in g.rows && last !in init {
        assert Selected(g, ids) == Selected(g, init) + {last};
        assert forall i | 0 <= i < |init| :: ids[i] == init[i];
      } else {
        assert Selected(g, ids) == Selected(g, init);
        if last in init {
          var i :| 0 <= i < |init| && init[i] == last;
          assert ids[i] == ids[|ids| - 1];
        }
      }
    }
  }

  /** It succeeds exactly for a nonempty list of pairwise distinct ids of this model (with a reason if it
      dismisses), then every listed row and no other changes. */
  lemma BulkTriageAllOrNothing(g: Register, b: BulkBody, now: Time)
    ensures BulkTriage(g, b, now).Ok? <==>
              b.ids != [] && !(b.status == Dismissed && Blank(b.dismissReason))
              && (forall i | 0 <= i < |b.ids| :: b.ids[i] in g.rows)
              && (forall i, j | 0 <= i < j < |b.ids| :: b.ids[i] != b.ids[j])
    ensures BulkTriage(g, b, now).Ok? ==>
              var g' := BulkTriage(g, b, now).value;
              g'.rows.Keys == g.rows.Keys && forall id | id in g.rows ::
                if id in b.ids then g'.rows[id].status == b.status && |Log(g', id)| == |Log(g, id)| + 1
                else g'.rows[id] == g.rows[id] && Log(g', id) == Log(g, id)
  {
    SelectedCount(g, b.ids);
  }
}
