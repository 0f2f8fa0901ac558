/** The threat endpoints, updating rows and audit entries in place.  Each is proved to take one `Step`. */
module ThreatStore {
  import opened Wrappers
  import opened PyText
  import opened DisplayIds
  import opened Threats
  import opened Reconcile
  import opened ThreatCatalog
  import opened ThreatSteps

  /** `order` is a query result: every row once, in an order the database chooses. */
  ghost predicate Lists(order: seq<Uuid>, rows: map<Uuid, Threat>) {
    Distinct(order) && forall id :: id in order <==> id in rows
  }

  // ---- Building `existing_by_identity` ----

  /** The ids in `order` whose row has identity `k`, in order. */
  function Matching(rows: map<Uuid, Threat>, order: seq<Uuid>, k: Identity): seq<Uuid>
    requires forall id <- order :: id in rows
  {
    if order == [] then []
    else
      var rest, last := Matching(rows, order[..|order| - 1], k), order[|order| - 1];
      if IsGenerated(rows[last]) && RowIdentity(rows[last]) == k then rest + [last] else rest
  }

  lemma {:induction false} MatchingIsGroup(rows: map<Uuid, Threat>, order: seq<Uuid>, k: Identity)
    requires forall id <- order :: id in rows
    ensures forall id :: id in Matching(rows, order, k) <==> id in order && id in Group(rows, k)
  {
    if order != [] {
      var init, last := order[..|order| - 1], order[|order| - 1];
      assert order == init + [last];
      MatchingIsGroup(rows, init, k);
    }
  }

  function At(index: map<Identity, seq<Uuid>>, k: Identity): seq<Uuid> {
    if k in index then index[k] else []
  }

  method BuildIndex(rows: map<Uuid, Threat>, order: seq<Uuid>) returns (index: map<Identity, seq<Uuid>>)
    requires Lists(order, rows)
    ensures forall k, id :: id in At(index, k) <==> id in Group(rows, k)
  {
    index := map[];
    for i := 0 to |order|
      invariant forall k :: At(index, k) == Matching(rows, order[..i], k)
    {
      assert order[..i + 1][..i] == order[..i];
      var id := order[i];
      if IsGenerated(rows[id]) {
        var k := RowIdentity(rows[id]);
        index := index[k := At(index, k) + [id]];
      }
    }
    assert order[..|order|] == order;
    forall k ensures forall id :: id in At(index, k) <==> id in Group(rows, k) {
      MatchingIsGroup(rows, order, k);
    }
  }

  /** Candidate `i` is not matched yet, and all before it are. */
  predicate FirstFree(candidates: seq<Uuid>, matched: set<Uuid>, i: nat)
    requires i < |candidates|
  {
    candidates[i] !in matched && forall k | 0 <= k < i :: candidates[k] in matched
  }

  /** The inner loop of the sync: the first candidate not matched yet. */
  method FirstUnmatched(candidates: seq<Uuid>, matched: set<Uuid>) returns (prev: Option<Uuid>)
    ensures prev == None <==> forall id <- candidates :: id in matched
    ensures prev.Some? ==> prev.value in candidates && prev.value !in matched
    ensures prev.Some? ==>
              exists i | 0 <= i < |candidates| :: candidates[i] == prev.value && FirstFree(candidates, matched, i)
  {
    for i := 0 to |candidates|
      invariant forall k | 0 <= k < i :: candidates[k] in matched
    {
      if candidates[i] !in matched {
        assert FirstFree(candidates, matched, i);
        return Some(candidates[i]);
      }
    }
    return None;
  }

  // ---- What the sync loop keeps ----

  /** The first `|assign|` generated threats have been placed; deletions are still to come. */
  ghost predicate Placed(before: map<Uuid, Threat>, rows: map<Uuid, Threat>, gts: seq<Generated>, assign: seq<Uuid>,
                         now: Time)
    requires |assign| <= |gts|
  {
    && Distinct(assign) && Greedy(before, gts[..|assign|], assign)
    && AllHold(before, rows, gts, assign, now) && RestUntouched(before, rows, assign)
  }

  ghost predicate AllHold(before: map<Uuid, Threat>, rows: map<Uuid, Threat>, gts: seq<Generated>,
                          assign: seq<Uuid>, now: Time)
    requires |assign| <= |gts|
  {
    forall j | 0 <= j < |assign| :: Holds(before, rows, assign[j], gts[j], now)
  }

  lemma PlaceKeepsGreedy(before: map<Uuid, Threat>, gts: seq<Generated>, assign: seq<Uuid>, id: Uuid)
    requires |assign| < |gts| && Greedy(before, gts[..|assign|], assign)
    requires id !in before ==> forall x <- Group(before, IdentityOf(gts[|assign|])) :: x in assign
    ensures Greedy(before, gts[..|assign| + 1], assign + [id])
  {
    var n := |assign|;
    forall j | 0 <= j < n + 1 && (assign + [id])[j] !in before
      ensures forall x <- Group(before, IdentityOf(gts[..n + 1][j])) :: x in assign + [id]
    {
      assert j < n ==> gts[..n + 1][j] == gts[..n][j] && (assign + [id])[j] == assign[j];
    }
  }

  lemma HoldsStays(before: map<Uuid, Threat>, rows: map<Uuid, Threat>, id: Uuid, row: Threat, other: Uuid,
                   gt: Generated, now: Time)
    requires Holds(before, rows, other, gt, now) && other != id
    ensures Holds(before, rows[id := row], other, gt, now)
  {}

  lemma PlaceKeepsHolds(before: map<Uuid, Threat>, rows: map<Uuid, Threat>, gts: seq<Generated>, assign: seq<Uuid>,
                        now: Time, id: Uuid, row: Threat)
    requires |assign| < |gts| && AllHold(before, rows, gts, assign, now) && id !in assign
    requires Holds(before, rows[id := row], id, gts[|assign|], now)
    ensures AllHold(before, rows[id := row], gts, assign + [id], now)
  {
    var rows', assign', n := rows[id := row], assign + [id], |assign|;
    assert assign'[n] == id;
    forall j | 0 <= j <= n ensures Holds(before, rows', assign'[j], gts[j], now) {
      if j < n {
        assert assign'[j] == assign[j] && assign[j] in assign;
        HoldsStays(before, rows, id, row, assign[j], gts[j], now);
      } else {
        assert j == n;
      }
    }
  }

  /** Rows that are not placed yet are as they were, and none is gone. */
  ghost predicate RestUntouched(before: map<Uuid, Threat>, rows: map<Uuid, Threat>, assign: seq<Uuid>) {
    && (forall id :: id in rows <==> id in assign || id in before)
    && (forall id | id in before && id !in assign :: rows[id] == before[id])
  }

  lemma PlaceKeepsRest(before: map<Uuid, Threat>, rows: map<Uuid, Threat>, assign: seq<Uuid>, id: Uuid, row: Threat)
    requires RestUntouched(before, rows, assign)
    ensures RestUntouched(before, rows[id := row], assign + [id])
  {}

  lemma Place(before: map<Uuid, Threat>, rows: map<Uuid, Threat>, gts: seq<Generated>, assign: seq<Uuid>, now: Time,
              id: Uuid, row: Threat)
    requires |assign| < |gts| && Placed(before, rows, gts, assign, now) && id !in assign
    requires Holds(before, rows[id := row], id, gts[|assign|], now)
    requires id !in before ==> forall x <- Group(before, IdentityOf(gts[|assign|])) :: x in assign
    ensures Placed(before, rows[id := row], gts, assign + [id], now)
  {
    PlaceKeepsHolds(before, rows, gts, assign, now, id, row);
    PlaceKeepsGreedy(before, gts, assign, id);
    PlaceKeepsRest(before, rows, assign, id, row);
  }

  lemma PlaceReused(before: map<Uuid, Threat>, rows: map<Uuid, Threat>, gts: seq<Generated>, assign: seq<Uuid>,
                    now: Time, id: Uuid)
    requires |assign| < |gts| && Placed(before, rows, gts, assign, now)
    requires id !in assign && id in Group(before, IdentityOf(gts[|assign|]))
    ensures id in rows && Placed(before, rows[id := Refreshed(rows[id], gts[|assign|])], gts, assign + [id], now)
  {
    assert rows[id] == before[id];
    Place(before, rows, gts, assign, now, id, Refreshed(rows[id], gts[|assign|]));
  }

  lemma PlaceInserted(before: map<Uuid, Threat>, rows: map<Uuid, Threat>, gts: seq<Generated>, assign: seq<Uuid>,
                      now: Time, id: Uuid)
    requires |assign| < |gts| && Placed(before, rows, gts, assign, now)
    requires id !in assign && id !in before && forall x <- Group(before, IdentityOf(gts[|assign|])) :: x in assign
    ensures Placed(before, rows[id := FreshRow(gts[|assign|], now)], gts, assign + [id], now)
  {
    Place(before, rows, gts, assign, now, id, FreshRow(gts[|assign|], now));
  }

  /** The loop's books: which old rows are taken, and that the minted ids are new. */
  ghost predicate Booked(before: set<Uuid>, issued: set<Uuid>, mint: nat -> Uuid, minted: nat, assign: seq<Uuid>,
                         matched: set<Uuid>) {
    && (forall id :: id in matched <==> id in assign && id in before)
    && (forall id <- assign | id !in before :: id !in issued)
    && (forall i: nat | minted <= i :: mint(i) !in assign)
  }

  lemma BookReused(before: set<Uuid>, issued: set<Uuid>, mint: nat -> Uuid, minted: nat, assign: seq<Uuid>,
                   matched: set<Uuid>, id: Uuid)
    requires FreshSupply(mint, before + issued) && Booked(before, issued, mint, minted, assign, matched) && id in before
    ensures Booked(before, issued, mint, minted, assign + [id], matched + {id})
  {}

  lemma BookInserted(before: set<Uuid>, issued: set<Uuid>, mint: nat -> Uuid, minted: nat, assign: seq<Uuid>,
                     matched: set<Uuid>)
    requires FreshSupply(mint, before + issued) && Booked(before, issued, mint, minted, assign, matched)
    ensures mint(minted) !in before && mint(minted) !in assign
    ensures Booked(before, issued, mint, minted + 1, assign + [mint(minted)], matched)
  {
    assert mint(minted) !in before + issued;
  }

  lemma Finish(before: map<Uuid, Threat>, rows: map<Uuid, Threat>, gts: seq<Generated>, assign: seq<Uuid>,
               now: Time, after: map<Uuid, Threat>)
    requires |assign| == |gts| && Placed(before, rows, gts, assign, now)
    requires forall id :: id in after <==> id in rows && !(id in before && IsGenerated(before[id]) && id !in assign)
    requires forall id | id in after :: after[id] == rows[id]
    ensures Reconciled(before, after, gts, assign, now)
  {
    assert gts[..|gts|] == gts;
    forall j | 0 <= j < |gts| ensures Holds(before, after, assign[j], gts[j], now) {
      assert Holds(before, rows, assign[j], gts[j], now) && assign[j] in assign;
    }
  }

  // ---- Row updates, field by field ----

  /** The update of a matched row. */
  method Refresh(prev: Threat, gt: Generated) returns (t: Threat)
    ensures t == Refreshed(prev, gt)
  {
    t := prev.(clusterId := None);
    var previousSeverity := t.severity;
    t := t.(displayId := gt.displayId, description := gt.description, stride := gt.stride, subtype := gt.subtype);
    t := t.(severity := gt.severity, source := SourceOf(gt.origin), ruleId := Some(gt.ruleId));
    t := t.(aiEnhanced := gt.origin == FromAI || gt.origin == FromBoth, providerManaged := gt.providerManaged);
    t := t.(nodeIds := gt.nodeIds, edgeIds := gt.edgeIds, rationale := OrNone(gt.rationale));
    t := t.(autoScore := Some(gt.score));
    if t.analystScore.Some? {
      t := t.(score := Some(BlendScores(gt.score, t.analystScore.value)));
    } else {
      t := t.(score := Some(gt.score));
    }
    if previousSeverity != gt.severity || Blank(t.residual) {
      t := t.(residual := Some(DeriveResidual(gt.severity, t.control)));
    }
  }

  /** The row inserted for an unmatched threat. */
  method NewRow(gt: Generated, now: Time) returns (t: Threat)
    ensures t == FreshRow(gt, now)
  {
    var residual := DeriveResidual(gt.severity, "none");
    t := BlankRow(now).(displayId := gt.displayId, description := gt.description, stride := gt.stride);
    t := t.(subtype := gt.subtype);
    t := t.(severity := gt.severity, source := SourceOf(gt.origin), status := Open, ruleId := Some(gt.ruleId));
    t := t.(aiEnhanced := gt.origin == FromAI || gt.origin == FromBoth, providerManaged := gt.providerManaged);
    t := t.(nodeIds := gt.nodeIds, edgeIds := gt.edgeIds, rationale := OrNone(gt.rationale));
    t := t.(control := "none", residual := Some(residual), score := Some(gt.score), autoScore := Some(gt.score));
  }

  /** The row `generate` inserts. */
  method NewRuleRow(gt: Generated, now: Time) returns (t: Threat)
    ensures t == GeneratedRow(gt, now)
  {
    t := BlankRow(now).(displayId := gt.displayId, description := gt.description, stride := gt.stride);
    t := t.(subtype := gt.subtype);
    t := t.(severity := gt.severity, source := Rules, status := Open, ruleId := Some(gt.ruleId));
    t := t.(nodeIds := gt.nodeIds, edgeIds := gt.edgeIds, rationale := OrNone(gt.rationale));
  }

  /** The update `triage` makes: the residual risk is derived from the severity and control just written. */
  method ApplyTriage(was: Threat, b: TriageBody, now: Time) returns (t: Threat)
    ensures t == TriagedRow(was, b, now)
  {
    var severity, reason := was.severity, b.dismissReason;
    if b.severity.Some? { severity := b.severity.value; }
    if b.status == Accepted { reason := None; }
    var plan, owner, dueDate, notes, control := was.plan, was.owner, was.dueDate, was.notes, was.control;
    if b.plan.Some? { plan := b.plan; }
    if b.owner.Some? { owner := b.owner; }
    if b.dueDate.Some? { dueDate := b.dueDate; }
    if b.notes.Some? { notes := b.notes; }
    if b.control.Some? { control := b.control.value; }
    var residual := was.residual;
    if b.residual.Some? {
      residual := b.residual;
    } else if b.control.Some? || b.severity.Some? || Blank(residual) {
      residual := Some(DeriveResidual(severity, control));
    }
    t := was.(status := b.status, severity := severity, dismissReason := reason, plan := plan, owner := owner,
              dueDate := dueDate, notes := notes, control := control, residual := residual,
              closedAt := if Terminal(b.status) then Some(now) else None);
  }

  /** The update `bulk-triage` makes: a row that is already closed keeps its closing time. */
  method ApplyBulk(was: Threat, b: BulkBody, now: Time) returns (t: Threat)
    ensures t == BulkRow(was, b, now)
  {
    var closedAt := was.closedAt;
    if Terminal(b.status) {
      if closedAt == None { closedAt := Some(now); }
    } else {
      closedAt := None;
    }
    var reason := if b.status == Dismissed then b.dismissReason else None;
    t := was.(status := b.status, dismissReason := reason, closedAt := closedAt);
  }

  method ApplyQualify(was: Threat, b: QualifyBody, now: Time) returns (t: Threat)
    ensures t == QualifiedRow(was, b, now)
  {
    t := was.(analystScore := Some(b.score), analystRationale := b.rationale);
    if b.note.Some? { t := t.(note := OrNone(b.note)); }
    var auto := if t.autoScore.Some? then t.autoScore.value else if t.score.Some? then t.score.value else 0;
    t := t.(score := Some(BlendScores(auto, b.score)));
    if b.action == Dismiss {
      t := t.(status := Dismissed, falsePositive := b.falsePositive, dismissReason := b.rationale);
      t := t.(closedAt := Some(now), qualifiedAt := Some(now));
    } else if b.action == Confirm {
      t := t.(qualifiedAt := Some(now));
    }
  }

  // ---- Deletions and audit entries ----

  /** `m` without the listed ids that were not matched. */
  function Spared<T>(m: map<Uuid, T>, generated: seq<Uuid>, matched: set<Uuid>): map<Uuid, T> {
    map id | id in m && (id in generated ==> id in matched) :: m[id]
  }

  lemma SparedSnoc<T>(m: map<Uuid, T>, generated: seq<Uuid>, matched: set<Uuid>, i: nat)
    requires i < |generated|
    ensures var id, rest := generated[i], Spared(m, generated[..i], matched);
            Spared(m, generated[..i + 1], matched) == if id in matched then rest else rest - {id}
  {
    assert generated[..i + 1] == generated[..i] + [generated[i]];
  }

  function Opened(audit: map<Uuid, seq<Entry>>, ids: seq<Uuid>): map<Uuid, seq<Entry>> {
    map id | id in audit.Keys + Elements(ids) :: if id in audit then audit[id] else []
  }

  lemma LogsCarried(g: Register, rows: map<Uuid, Threat>, generated: seq<Uuid>, matched: set<Uuid>,
                    assign: seq<Uuid>, audit: map<Uuid, seq<Entry>>)
    requires Keyed(g) && (forall id :: id in generated <==> id in g.rows && IsGenerated(g.rows[id]))
    requires forall id :: id in matched <==> id in assign && id in g.rows
    requires forall id :: id in rows <==> id in assign || (id in g.rows && !IsGenerated(g.rows[id]))
    requires audit == Opened(Spared(g.audit, generated, matched), assign)
    ensures audit == CarryAudit(g, rows)
  {
    forall id ensures id in audit <==> id in rows {}
  }

  lemma SyncDone(g: Register, rows: map<Uuid, Threat>, gts: seq<Generated>, assign: seq<Uuid>, now: Time,
                 g': Register)
    requires Keyed(g) && Reconciled(g.rows, rows, gts, assign, now) && Issues(g, assign)
    requires g' == Register(rows, CarryAudit(g, rows), g.issued + Elements(assign))
    ensures AnalyzeStep(g, gts, assign, now, g') && Keyed(g')
  {
    forall id | id in rows ensures id in g'.issued {}
  }

  lemma BookedIssues(g: Register, mint: nat -> Uuid, minted: nat, assign: seq<Uuid>, matched: set<Uuid>)
    requires Booked(g.rows.Keys, g.issued, mint, minted, assign, matched)
    ensures Issues(g, assign)
  {}

  // ---- `generate`'s insert loop ----

  ghost predicate Inserted(spared: map<Uuid, Threat>, rows: map<Uuid, Threat>, gts: seq<Generated>, ids: seq<Uuid>,
                           now: Time)
    requires |ids| <= |gts|
  {
    && Distinct(ids) && AllInserted(spared, rows, gts, ids, now)
    && (forall id :: id in rows <==> id in ids || id in spared)
    && (forall id | id in spared :: rows[id] == spared[id])
  }

  ghost predicate AllInserted(spared: map<Uuid, Threat>, rows: map<Uuid, Threat>, gts: seq<Generated>,
                              ids: seq<Uuid>, now: Time)
    requires |ids| <= |gts|
  {
    forall j | 0 <= j < |ids| :: ids[j] !in spared && ids[j] in rows && rows[ids[j]] == GeneratedRow(gts[j], now)
  }

  lemma InsertKeepsRows(spared: map<Uuid, Threat>, rows: map<Uuid, Threat>, gts: seq<Generated>, ids: seq<Uuid>,
                        now: Time, id: Uuid, row: Threat)
    requires |ids| < |gts| && AllInserted(spared, rows, gts, ids, now) && id !in rows && id !in spared
    requires row == GeneratedRow(gts[|ids|], now)
    ensures AllInserted(spared, rows[id := row], gts, ids + [id], now)
  {
    forall j | 0 <= j < |ids + [id]|
      ensures var x, rows' := (ids + [id])[j], rows[id := row];
              x !in spared && x in rows' && rows'[x] == GeneratedRow(gts[j], now)
    {
      if j < |ids| { assert (ids + [id])[j] == ids[j]; }
    }
  }

  lemma InsertOne(spared: map<Uuid, Threat>, rows: map<Uuid, Threat>, gts: seq<Generated>, ids: seq<Uuid>,
                  now: Time, id: Uuid)
    requires |ids| < |gts| && Inserted(spared, rows, gts, ids, now) && id !in rows
    ensures Inserted(spared, rows[id := GeneratedRow(gts[|ids|], now)], gts, ids + [id], now)
  {
    InsertKeepsRows(spared, rows, gts, ids, now, id, GeneratedRow(gts[|ids|], now));
  }

  ghost predicate Drawn(mint: nat -> Uuid, ids: seq<Uuid>) {
    forall i: nat | i < |ids| :: ids[i] == mint(i)
  }

  lemma DrawnNext(mint: nat -> Uuid, used: set<Uuid>, ids: seq<Uuid>)
    requires FreshSupply(mint, used) && Drawn(mint, ids)
    ensures mint(|ids|) !in used && mint(|ids|) !in ids && Drawn(mint, ids + [mint(|ids|)])
  {}

  lemma DrawnFresh(mint: nat -> Uuid, used: set<Uuid>, ids: seq<Uuid>)
    requires FreshSupply(mint, used) && Drawn(mint, ids)
    ensures forall id <- ids :: id !in used
  {}

  function LogsOf(audit: map<Uuid, seq<Entry>>, rows: map<Uuid, Threat>): map<Uuid, seq<Entry>> {
    map id | id in audit && id in rows :: audit[id]
  }

  lemma InsertedAll(g: Register, rows: map<Uuid, Threat>, gts: seq<Generated>, ids: seq<Uuid>, now: Time)
    requires |ids| == |gts| && Inserted(OtherRows(g.rows), rows, gts, ids, now)
            && forall id <- ids :: id !in g.rows.Keys + g.issued
    ensures Regenerated(g.rows, rows, gts, ids, now) && Issues(g, ids)
  {
    forall j | 0 <= j < |gts| ensures ids[j] !in g.rows {
      assert ids[j] in ids;
    }
  }

  lemma InsertedKeys(spared: map<Uuid, Threat>, rows: map<Uuid, Threat>, gts: seq<Generated>, ids: seq<Uuid>,
                     now: Time)
    requires |ids| <= |gts| && Inserted(spared, rows, gts, ids, now)
    ensures rows.Keys == spared.Keys + Elements(ids)
  {}

  lemma InsertLogs(g: Register, rows: map<Uuid, Threat>, kept: map<Uuid, Threat>, ids: seq<Uuid>,
                   audit: map<Uuid, seq<Entry>>)
    requires Keyed(g) && kept.Keys <= g.rows.Keys && rows.Keys == kept.Keys + Elements(ids)
    requires forall id <- ids :: id !in g.rows.Keys + g.issued
    requires audit == Opened(LogsOf(g.audit, kept), ids)
    ensures audit == CarryAudit(g, rows) && audit.Keys == rows.Keys <= g.issued + Elements(ids)
  {
    assert audit.Keys == rows.Keys;
  }

  // ---- Manual numbering ----

  /** No row has this display id. */
  ghost predicate NewDisplayId(rows: map<Uuid, Threat>, displayId: string) {
    forall id | id in rows :: rows[id].displayId != displayId
  }

  lemma ManualKeepsDisplayId(catalog: seq<CatalogEntry>, body: ManualBody, displayId: string, now: Time)
    ensures var r := ManualRow(catalog, body, displayId, now); r.Ok? ==> r.value.displayId == displayId
  {}

  lemma NumbersSeen(d: Digits, rows: map<Uuid, Threat>, order: seq<Uuid>, displayIds: seq<string>, n: int)
    requires Lists(order, rows) && |displayIds| == |order| && n > 0
    requires forall i | 0 <= i < |order| :: displayIds[i] == rows[order[i]].displayId
    requires forall x <- displayIds :: ManualNumber(d, x).Some? ==> ManualNumber(d, x).value < n
    requires n == 1 || exists x <- displayIds :: ManualNumber(d, x) == Some(n - 1)
    ensures NextManual(d, rows, n)
    ensures forall x :: x !in displayIds ==> NewDisplayId(rows, x)
  {
    forall id | id in rows ensures rows[id].displayId in displayIds {
      var i :| 0 <= i < |order| && order[i] == id;
      assert displayIds[i] == rows[id].displayId;
    }
    if n != 1 {
      var i :| 0 <= i < |displayIds| && ManualNumber(d, displayIds[i]) == Some(n - 1);
      assert order[i] in rows && ManualNumber(d, rows[order[i]].displayId) == Some(n - 1);
    }
  }

  // ---- Clusters ----

  function Claimed(m: map<Uuid, Uuid>, cluster: Uuid, threats: seq<Uuid>): map<Uuid, Uuid> {
    m + map id | id in threats :: cluster
  }

  lemma ClaimOne(rows: map<Uuid, Threat>, m: map<Uuid, Uuid>, cluster: Uuid, threats: seq<Uuid>, j: nat)
    requires j < |threats|
    ensures var before, id := Reclustered(rows, Claimed(m, cluster, threats[..j])), threats[j];
            Reclustered(rows, Claimed(m, cluster, threats[..j + 1]))
            == if id in rows then before[id := before[id].(clusterId := Some(cluster))] else before
  {
    assert threats[..j + 1] == threats[..j] + [threats[j]];
    ReclusteredOne(rows, Claimed(m, cluster, threats[..j]), threats[j], cluster);
    assert Claimed(m, cluster, threats[..j + 1]) == Claimed(m, cluster, threats[..j])[threats[j] := cluster];
  }

  lemma ReclusteredOne(rows: map<Uuid, Threat>, m: map<Uuid, Uuid>, id: Uuid, cluster: Uuid)
    ensures Reclustered(rows, m[id := cluster])
         == if id in rows then Reclustered(rows, m)[id := Reclustered(rows, m)[id].(clusterId := Some(cluster))]
            else Reclustered(rows, m)
  {}

  // ---- Bulk triage's loop ----

  /** `m` with the listed entries already replaced by those of `target`. */
  function Rewritten<T>(m: map<Uuid, T>, target: map<Uuid, T>, done: seq<Uuid>): map<Uuid, T>
    requires m.Keys == target.Keys
  {
    map id | id in m :: if id in done then target[id] else m[id]
  }

  lemma RewrittenSnoc<T>(m: map<Uuid, T>, target: map<Uuid, T>, done: seq<Uuid>, i: nat)
    requires m.Keys == target.Keys && i < |done| && done[i] in m && Distinct(done)
    ensures Rewritten(m, target, done[..i])[done[i]] == m[done[i]]
    ensures Rewritten(m, target, done[..i + 1]) == Rewritten(m, target, done[..i])[done[i] := target[done[i]]]
  {
    assert done[..i + 1] == done[..i] + [done[i]];
  }

  lemma RewrittenAll<T>(m: map<Uuid, T>, target: map<Uuid, T>, done: seq<Uuid>)
    requires m.Keys == target.Keys && forall id | id in m && id !in done :: target[id] == m[id]
    ensures Rewritten(m, target, done) == target
  {}

  /** The handler raised `err` and nothing changed, or the register is what `spec` computes. */
  ghost predicate Reviewed(before: Register, after: Register, err: Option<ReviewError>,
                           spec: Result<Register, ReviewError>) {
    match spec
    case Ok(g) => err == None && after == g
    case Err(e) => err == Some(e) && after == before
  }

  class Store {
    var rows: map<Uuid, Threat>
    var audit: map<Uuid, seq<Entry>>
    ghost var issued: set<Uuid>

    ghost function Value(): Register
      reads this
    {
      Register(rows, audit, issued)
    }

    ghost predicate Valid()
      reads this
    {
      Keyed(Value())
    }

    constructor ()
      ensures Valid() && Value() == EMPTY_REGISTER
    {
      rows, audit, issued := map[], map[], {};
    }

    // ---- analyze ----

    /** The sync loop: reuse an unmatched row of the same identity, else insert.  The result lists the row
        of each generated threat, which is what the response reports. */
    method PlaceAll(gts: seq<Generated>, order: seq<Uuid>, mint: nat -> Uuid, now: Time)
      returns (assign: seq<Uuid>, matched: set<Uuid>)
      requires Lists(order, rows) && FreshSupply(mint, rows.Keys + issued)
      modifies this`rows
      ensures |assign| == |gts| && Placed(old(rows), rows, gts, assign, now)
      ensures exists minted: nat :: Booked(old(rows).Keys, issued, mint, minted, assign, matched)
    {
      ghost var before := rows;
      var index := BuildIndex(rows, order);
      var minted: nat := 0;
      assign, matched := [], {};
      for j := 0 to |gts|
        invariant |assign| == j && Placed(before, rows, gts, assign, now)
        invariant Booked(before.Keys, issued, mint, minted, assign, matched)
      {
        var prev := FirstUnmatched(At(index, IdentityOf(gts[j])), matched);
        match prev {
          case Some(id) =>
            BookReused(before.Keys, issued, mint, minted, assign, matched, id);
            PlaceReused(before, rows, gts, assign, now, id);
            var row := Refresh(rows[id], gts[j]);
            rows, matched, assign := rows[id := row], matched + {id}, assign + [id];
          case None =>
            var id := mint(minted);
            BookInserted(before.Keys, issued, mint, minted, assign, matched);
            PlaceInserted(before, rows, gts, assign, now, id);
            var row := NewRow(gts[j], now);
            minted := minted + 1;
            rows, assign := rows[id := row], assign + [id];
        }
      }
    }

    /** `generated_existing`. */
    method GeneratedIds(order: seq<Uuid>) returns (generated: seq<Uuid>)
      requires Lists(order, rows)
      ensures forall id :: id in generated <==> id in rows && IsGenerated(rows[id])
    {
      generated := [];
      for i := 0 to |order|
        invariant forall id :: id in generated <==> id in order[..i] && IsGenerated(rows[id])
      {
        assert order[..i + 1] == order[..i] + [order[i]];
        if IsGenerated(rows[order[i]]) { generated := generated + [order[i]]; }
      }
      assert order[..|order|] == order;
    }

    /** Deleting a row deletes its audit entries. */
    method DeleteUnmatched(generated: seq<Uuid>, matched: set<Uuid>)
      modifies this`rows, this`audit
      ensures rows == Spared(old(rows), generated, matched) && audit == Spared(old(audit), generated, matched)
    {
      for i := 0 to |generated|
        invariant rows == Spared(old(rows), generated[..i], matched)
                && audit == Spared(old(audit), generated[..i], matched)
      {
        SparedSnoc(old(rows), generated, matched, i);
        SparedSnoc(old(audit), generated, matched, i);
        if generated[i] !in matched {
          rows, audit := rows - {generated[i]}, audit - {generated[i]};
        }
      }
      assert generated[..|generated|] == generated;
    }

    /** A new row starts without audit entries. */
    method OpenLogs(ids: seq<Uuid>)
      modifies this`audit
      ensures audit == Opened(old(audit), ids)
    {
      for i := 0 to |ids|
        invariant audit == Opened(old(audit), ids[..i])
      {
        assert ids[..i + 1] == ids[..i] + [ids[i]];
        if ids[i] !in audit { audit := audit[ids[i] := []]; }
      }
      assert ids[..|ids|] == ids;
    }

    /** The locked part of `analyze`. */
    method Analyze(gts: seq<Generated>, order: seq<Uuid>, mint: nat -> Uuid, now: Time) returns (assign: seq<Uuid>)
      requires Valid() && Lists(order, rows) && FreshSupply(mint, rows.Keys + issued)
      modifies this
      ensures Valid() && AnalyzeStep(old(Value()), gts, assign, now, Value())
    {
      ghost var g := Value();
      var generated := GeneratedIds(order);
      var matched;
      assign, matched := PlaceAll(gts, order, mint, now);
      ghost var placed := rows;
      ghost var minted: nat :| Booked(g.rows.Keys, issued, mint, minted, assign, matched);
      DeleteUnmatched(generated, matched);
      Finish(g.rows, placed, gts, assign, now, rows);
      OpenLogs(assign);
      issued := issued + Elements(assign);
      LogsCarried(g, rows, generated, matched, assign, audit);
      BookedIssues(g, mint, minted, assign, matched);
      SyncDone(g, rows, gts, assign, now, Value());
    }

    // ---- generate ----

    method InsertAll(gts: seq<Generated>, mint: nat -> Uuid, now: Time, ghost used: set<Uuid>)
      returns (ids: seq<Uuid>)
      requires FreshSupply(mint, used) && rows.Keys <= used
      modifies this`rows
      ensures |ids| == |gts| && Inserted(old(rows), rows, gts, ids, now) && forall id <- ids :: id !in used
    {
      ghost var spared := rows;
      ids := [];
      for j := 0 to |gts|
        invariant |ids| == j && Drawn(mint, ids) && Inserted(spared, rows, gts, ids, now)
      {
        DrawnNext(mint, used, ids);
        InsertOne(spared, rows, gts, ids, now, mint(j));
        var row := NewRuleRow(gts[j], now);
        rows, ids := rows[mint(j) := row], ids + [mint(j)];
      }
      DrawnFresh(mint, used, ids);
    }

    method Generate(gts: seq<Generated>, mint: nat -> Uuid, now: Time) returns (ids: seq<Uuid>)
      requires Valid() && FreshSupply(mint, rows.Keys + issued)
      modifies this
      ensures Valid() && GenerateStep(old(Value()), gts, ids, now, Value())
    {
      ghost var g := Value();
      rows := OtherRows(rows);
      audit := LogsOf(audit, rows);
      ids := InsertAll(gts, mint, now, g.rows.Keys + g.issued);
      InsertedAll(g, rows, gts, ids, now);
      OpenLogs(ids);
      issued := issued + Elements(ids);
      InsertedKeys(OtherRows(g.rows), rows, gts, ids, now);
      InsertLogs(g, rows, OtherRows(g.rows), ids, audit);
    }

    // ---- clusters ----

    /** `_recompute_clusters`: deleting the old clusters clears every row, then each cluster claims its threats. */
    method Recluster(clusters: seq<Cluster>)
      requires Valid()
      modifies this`rows
      ensures Valid() && Value() == old(Value()).(rows := Reclustered(old(rows), ClusterMap(clusters)))
    {
      rows := Reclustered(rows, map[]);
      for i := 0 to |clusters|
        invariant rows == Reclustered(old(rows), ClusterMap(clusters[..i]))
      {
        ClaimAll(clusters[i], old(rows), ClusterMap(clusters[..i]));
        assert clusters[..i + 1][..i] == clusters[..i];
      }
      assert clusters[..|clusters|] == clusters;
    }

    method ClaimAll(c: Cluster, ghost was: map<Uuid, Threat>, ghost before: map<Uuid, Uuid>)
      requires rows == Reclustered(was, before)
      modifies this`rows
      ensures rows == Reclustered(was, Claimed(before, c.id, c.threats))
    {
      for j := 0 to |c.threats|
        invariant rows == Reclustered(was, Claimed(before, c.id, c.threats[..j]))
      {
        ClaimOne(was, before, c.id, c.threats, j);
        var id := c.threats[j];
        if id in rows {
          rows := rows[id := rows[id].(clusterId := Some(c.id))];
        }
      }
      assert c.threats[..|c.threats|] == c.threats;
    }

    // ---- manual rows and reviews ----

    method InsertManual(id: Uuid, row: Threat)
      requires Valid() && id !in issued
      modifies this
      ensures Valid() && Value() == Register(old(rows)[id := row], old(audit)[id := []], old(issued) + {id})
    {
      rows, audit, issued := rows[id := row], audit[id := []], issued + {id};
    }

    method CreateManual(body: ManualBody, order: seq<Uuid>, mint: nat -> Uuid, now: Time, d: Digits,
                        catalog: seq<CatalogEntry>)
      returns (created: Result<Uuid, ManualError>, ghost number: int)
      requires Valid() && Lists(order, rows) && FreshSupply(mint, rows.Keys + issued) && DigitTable(d)
      modifies this
      ensures Valid() && ManualStep(d, catalog, old(Value()), body, mint(0), number, now, Value())
      ensures created.Ok? ==>
                created.value == mint(0) && mint(0) in rows && NewDisplayId(old(rows), rows[mint(0)].displayId)
      ensures created.Err? ==> Value() == old(Value())
    {
      var existing := rows;
      var displayIds := seq(|order|, i requires 0 <= i < |order| => existing[order[i]].displayId);
      var displayId, n := MintManual(d, displayIds);
      number := n;
      NumbersSeen(d, rows, order, displayIds, n);
      ManualKeepsDisplayId(catalog, body, displayId, now);
      assert NewDisplayId(rows, displayId);
      var built := BuildManual(catalog, body, displayId, now);
      match built {
        case Err(e) => created := Err(e);
        case Ok(row) =>
          assert mint(0) !in rows.Keys + issued;
          InsertManual(mint(0), row);
          created := Ok(mint(0));
      }
    }

    method Triage(id: Uuid, b: TriageBody, now: Time) returns (err: Option<ReviewError>)
      requires Valid()
      modifies this
      ensures Valid() && Reviewed(old(Value()), Value(), err, Threats.Triage(old(Value()), id, b, now))
    {
      if id !in rows { return Some(UnknownThreat); }
      if b.status == Dismissed && Blank(b.dismissReason) { return Some(MissingReason); }
      var t := rows[id];
      var row := ApplyTriage(t, b, now);
      var entries := [Triaged(t.status, b.status, TriageReason(b))];
      if b.owner.Some? && b.owner != t.owner {
        entries := entries + [OwnerAssigned(t.status, b.status, b.owner.value)];
      }
      if b.control.Some? && b.control.value != NormalControl(t.control) {
        entries := entries + [ControlUpdated(t.status, b.status, b.control.value)];
      }
      if b.severity.Some? && b.severity.value != t.severity {
        entries := entries + [SeverityUpdated(t.severity, b.severity.value)];
      }
      assert entries == TriageEntries(t, b);
      rows, audit := rows[id := row], audit[id := audit[id] + entries];
      return None;
    }

    method BulkTriage(b: BulkBody, found: seq<Uuid>, now: Time) returns (err: Option<ReviewError>)
      requires Valid() && Distinct(found) && forall id :: id in found <==> id in Selected(Value(), b.ids)
      modifies this
      ensures Valid() && Reviewed(old(Value()), Value(), err, Threats.BulkTriage(old(Value()), b, now))
    {
      if b.ids == [] { return Some(NoThreats); }
      if b.status == Dismissed && Blank(b.dismissReason) { return Some(MissingReason); }
      DistinctCount(found);
      assert Elements(found) == Selected(Value(), b.ids);
      if |found| != |b.ids| { return Some(UnknownThreat); }
      SelectedCount(Value(), b.ids);
      ghost var g := Value();
      ghost var target := Threats.BulkTriage(g, b, now).value;
      assert forall id :: id in found <==> id in b.ids;
      BulkAll(b, found, now, target);
      RewrittenAll(g.rows, target.rows, found);
      RewrittenAll(g.audit, target.audit, found);
      return None;
    }

    method BulkAll(b: BulkBody, found: seq<Uuid>, now: Time, ghost target: Register)
      requires Valid() && Distinct(found) && target.rows.Keys == target.audit.Keys == rows.Keys
      requires forall id <- found :: id in rows && target.rows[id] == BulkRow(rows[id], b, now)
                                     && target.audit[id]
                                        == audit[id] + [Triaged(rows[id].status, b.status, BulkReason(b))]
      modifies this`rows, this`audit
      ensures rows == Rewritten(old(rows), target.rows, found) && audit == Rewritten(old(audit), target.audit, found)
    {
      for i := 0 to |found|
        invariant rows == Rewritten(old(rows), target.rows, found[..i])
                && audit == Rewritten(old(audit), target.audit, found[..i])
      {
        var id := found[i];
        RewrittenSnoc(old(rows), target.rows, found, i);
        RewrittenSnoc(old(audit), target.audit, found, i);
        var previous := rows[id].status;
        var row := ApplyBulk(rows[id], b, now);
        rows, audit := rows[id := row], audit[id := audit[id] + [Triaged(previous, b.status, BulkReason(b))]];
      }
      assert found[..|found|] == found;
    }

    method Qualify(id: Uuid, b: QualifyBody, now: Time) returns (err: Option<ReviewError>)
      requires Valid() && ValidQualify(b)
      modifies this
      ensures Valid() && Reviewed(old(Value()), Value(), err, Threats.Qualify(old(Value()), id, b, now))
    {
      if id !in rows { return Some(UnknownThreat); }
      var previous := rows[id].status;
      var row := ApplyQualify(rows[id], b, now);
      rows, audit := rows[id := row], audit[id := audit[id] + [Qualified(previous, row.status, QualifyReason(b))]];
      return None;
    }
  }
}
