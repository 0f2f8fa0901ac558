/** One request against the threat register, as a step relation. */
module ThreatSteps {
  import opened Wrappers
  import opened PyText
  import opened DisplayIds
  import opened Threats
  import opened Reconcile
  import opened ThreatCatalog

  /** `ids` and `assign` name the row each generated threat ended up on, `id` the row a manual threat got. */
  datatype Request =
    | Generate(gts: seq<Generated>, ids: seq<Uuid>, now: Time)
    | Analyze(gts: seq<Generated>, assign: seq<Uuid>, now: Time)
    | AddManual(manual: ManualBody, id: Uuid, number: int, now: Time)
    | TriageOne(id: Uuid, triage: TriageBody, now: Time)
    | TriageMany(bulk: BulkBody, now: Time)
    | QualifyOne(id: Uuid, qualify: QualifyBody, now: Time)
    | Recluster(clusters: map<Uuid, Uuid>)

  // ---- `generate`: delete the rule rows, insert the engine's output ----

  /** Columns `generate` does not mention get their defaults. */
  function GeneratedRow(gt: Generated, now: Time): Threat {
    FreshRow(gt, now).(source := Rules, aiEnhanced := false, providerManaged := false,
                       residual := None, score := None, autoScore := None)
  }

  /** The rows `delete(...).where(source == "Rules")` leaves. */
  function OtherRows(rows: map<Uuid, Threat>): map<Uuid, Threat> {
    map id | id in rows && rows[id].source != Rules :: rows[id]
  }

  ghost predicate Regenerated(before: map<Uuid, Threat>, after: map<Uuid, Threat>, gts: seq<Generated>,
                              ids: seq<Uuid>, now: Time) {
    && |ids| == |gts| && Distinct(ids)
    && (forall j | 0 <= j < |gts| :: ids[j] !in before && ids[j] in after && after[ids[j]] == GeneratedRow(gts[j], now))
    && (forall id :: id in after <==> id in ids || (id in before && before[id].source != Rules))
    && (forall id | id in before && before[id].source != Rules :: after[id] == before[id])
  }

  // ---- `threats/manual` ----

  /** One more than the largest number in use, or 1. */
  ghost predicate NextManual(d: Digits, rows: map<Uuid, Threat>, n: int) {
    && n > 0
    && (forall id | id in rows ::
          ManualNumber(d, rows[id].displayId).Some? ==> ManualNumber(d, rows[id].displayId).value < n)
    && (n == 1 || exists id | id in rows :: ManualNumber(d, rows[id].displayId) == Some(n - 1))
  }

  // ---- `clusters/compute`, also run at the end of `analyze` ----

  function Reclustered(rows: map<Uuid, Threat>, clusters: map<Uuid, Uuid>): map<Uuid, Threat> {
    map id | id in rows :: rows[id].(clusterId := if id in clusters then Some(clusters[id]) else None)
  }

  /** A computed cluster: its new id and the threats in it. */
  datatype Cluster = Cluster(id: Uuid, threats: seq<Uuid>)

  /** A threat in several clusters ends up in the last one. */
  function ClusterMap(clusters: seq<Cluster>): map<Uuid, Uuid> {
    if clusters == [] then map[]
    else
      var last := clusters[|clusters| - 1];
      ClusterMap(clusters[..|clusters| - 1]) + map id | id in last.threats :: last.id
  }

  // ---- Steps ----

  /** A deleted row's audit entries go with it; a new row has none. */
  function CarryAudit(g: Register, rows: map<Uuid, Threat>): map<Uuid, seq<Entry>> {
    map id | id in rows :: Log(g, id)
  }

  /** Rows that were not there get ids never issued before. */
  ghost predicate Issues(g: Register, ids: seq<Uuid>) {
    forall id <- ids | id !in g.rows :: id !in g.issued
  }

  function Answer(g: Register, r: Result<Register, ReviewError>): Register {
    if r.Ok? then r.value else g
  }

  ghost predicate GenerateStep(g: Register, gts: seq<Generated>, ids: seq<Uuid>, now: Time, g': Register) {
    && Regenerated(g.rows, g'.rows, gts, ids, now) && Issues(g, ids)
    && g'.audit == CarryAudit(g, g'.rows) && g'.issued == g.issued + Elements(ids)
  }

  ghost predicate AnalyzeStep(g: Register, gts: seq<Generated>, assign: seq<Uuid>, now: Time, g': Register) {
    && Reconciled(g.rows, g'.rows, gts, assign, now) && Issues(g, assign)
    && g'.audit == CarryAudit(g, g'.rows) && g'.issued == g.issued + Elements(assign)
  }

  ghost predicate ManualStep(d: Digits, catalog: seq<CatalogEntry>, g: Register, body: ManualBody, id: Uuid, n: int,
                             now: Time, g': Register) {
    match ManualRow(catalog, body, DisplayId(n), now)
    case Ok(row) =>
      && NextManual(d, g.rows, n) && id !in g.issued
      && g' == Register(g.rows[id := row], g.audit[id := []], g.issued + {id})
    case Err(_) => g' == g
  }

  ghost predicate Step(d: Digits, catalog: seq<CatalogEntry>, g: Register, r: Request, g': Register) {
    match r
    case Generate(gts, ids, now) => GenerateStep(g, gts, ids, now, g')
    case Analyze(gts, assign, now) => AnalyzeStep(g, gts, assign, now, g')
    case AddManual(body, id, n, now) => ManualStep(d, catalog, g, body, id, n, now, g')
    case TriageOne(id, body, now) => g' == Answer(g, Triage(g, id, body, now))
    case TriageMany(body, now) => g' == Answer(g, BulkTriage(g, body, now))
    case QualifyOne(id, body, now) => ValidQualify(body) && g' == Answer(g, Qualify(g, id, body, now))
    case Recluster(clusters) => g' == g.(rows := Reclustered(g.rows, clusters))
  }

  /** What the tables guarantee: audit entries belong to live rows, and a live row's id was issued. */
  ghost predicate Keyed(g: Register) {
    g.audit.Keys == g.rows.Keys && g.rows.Keys <= g.issued
  }
}
