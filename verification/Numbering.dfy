/** Display ids: when each request keeps them distinct, and the runs in which they collide. */
module Numbering {
  import opened Wrappers
  import opened PyText
  import opened DisplayIds
  import opened Threats
  import opened Reconcile
  import opened ThreatCatalog
  import opened ThreatSteps
  import opened ThreatRuns

  ghost predicate DistinctDisplayIds(rows: map<Uuid, Threat>) {
    forall a, b | a in rows && b in rows && a != b :: rows[a].displayId != rows[b].displayId
  }

  // ---- Rows that stay, and rows that get new display ids ----

  /** Some rows keep their display id, and row `ids[j]` gets `names[j]`. */
  ghost predicate Renumbered(kept: map<Uuid, Threat>, after: map<Uuid, Threat>, ids: seq<Uuid>, names: seq<string>) {
    && |ids| == |names| && Distinct(ids) && (forall j | 0 <= j < |ids| :: ids[j] !in kept)
    && (forall id :: id in after <==> id in kept || id in ids)
    && (forall j | 0 <= j < |ids| :: ids[j] in after && after[ids[j]].displayId == names[j])
    && (forall id | id in kept :: after[id].displayId == kept[id].displayId)
  }

  /** The new names differ from each other and from every kept one. */
  ghost predicate Apart(kept: map<Uuid, Threat>, names: seq<string>) {
    && Distinct(names)
    && forall j, id | 0 <= j < |names| && id in kept :: names[j] != kept[id].displayId
  }

  lemma DistinctAreApart(kept: map<Uuid, Threat>, after: map<Uuid, Threat>, ids: seq<Uuid>, names: seq<string>)
    requires Renumbered(kept, after, ids, names) && DistinctDisplayIds(after)
    ensures DistinctDisplayIds(kept) && Apart(kept, names)
  {
    forall i, j | 0 <= i < j < |names| ensures names[i] != names[j] {
      assert ids[i] != ids[j] && after[ids[i]].displayId != after[ids[j]].displayId;
    }
    forall j, id | 0 <= j < |names| && id in kept ensures names[j] != kept[id].displayId {
      assert after[ids[j]].displayId != after[id].displayId;
    }
  }

  lemma ApartPair(kept: map<Uuid, Threat>, after: map<Uuid, Threat>, ids: seq<Uuid>, names: seq<string>, a: Uuid,
                  b: Uuid)
    requires Renumbered(kept, after, ids, names) && Apart(kept, names) && a in ids && b in after && a != b
    ensures after[a].displayId != after[b].displayId
  {
    var i :| 0 <= i < |ids| && ids[i] == a;
    if b in ids {
      var j :| 0 <= j < |ids| && ids[j] == b;
      assert if i < j then names[i] != names[j] else names[j] != names[i];
    } else {
      assert names[i] != kept[b].displayId;
    }
  }

  lemma RenumberedDistinctIff(kept: map<Uuid, Threat>, after: map<Uuid, Threat>, ids: seq<Uuid>, names: seq<string>)
    requires Renumbered(kept, after, ids, names)
    ensures DistinctDisplayIds(after) <==> DistinctDisplayIds(kept) && Apart(kept, names)
  {
    if DistinctDisplayIds(after) {
      DistinctAreApart(kept, after, ids, names);
    }
    if DistinctDisplayIds(kept) && Apart(kept, names) {
      forall a, b | a in after && b in after && a != b ensures after[a].displayId != after[b].displayId {
        if a in ids {
          ApartPair(kept, after, ids, names, a, b);
        } else if b in ids {
          ApartPair(kept, after, ids, names, b, a);
        }
      }
    }
  }

  // ---- The requests that number ----

  function Names(gts: seq<Generated>): (r: seq<string>)
    ensures |r| == |gts|
  {
    seq(|gts|, j requires 0 <= j < |gts| => gts[j].displayId)
  }

  function ManualRows(rows: map<Uuid, Threat>): map<Uuid, Threat> {
    map id | id in rows && !IsGenerated(rows[id]) :: rows[id]
  }

  lemma AnalyzeRenumbers(before: map<Uuid, Threat>, after: map<Uuid, Threat>, gts: seq<Generated>,
                         assign: seq<Uuid>, now: Time)
    requires Reconciled(before, after, gts, assign, now)
    ensures Renumbered(ManualRows(before), after, assign, Names(gts))
  {
    forall j | 0 <= j < |gts|
      ensures assign[j] !in ManualRows(before)
      ensures assign[j] in after && after[assign[j]].displayId == gts[j].displayId
    {
      assert Holds(before, after, assign[j], gts[j], now);
    }
  }

  lemma GenerateRenumbers(before: map<Uuid, Threat>, after: map<Uuid, Threat>, gts: seq<Generated>, ids: seq<Uuid>,
                          now: Time)
    requires Regenerated(before, after, gts, ids, now)
    ensures Renumbered(OtherRows(before), after, ids, Names(gts))
  {
    forall j | 0 <= j < |gts|
      ensures ids[j] !in OtherRows(before)
      ensures ids[j] in after && after[ids[j]].displayId == gts[j].displayId
    {
      assert after[ids[j]] == GeneratedRow(gts[j], now);
    }
  }

  /** An analysis numbers its threats without looking at the Manual rows, `generate` without looking at any it
      keeps: display ids are distinct afterwards exactly when those rows' were, the new ones are, and the two do
      not meet. */
  lemma AnalyzeDistinctIff(before: map<Uuid, Threat>, after: map<Uuid, Threat>, gts: seq<Generated>,
                           assign: seq<Uuid>, now: Time)
    requires Reconciled(before, after, gts, assign, now)
    ensures DistinctDisplayIds(after) <==>
              DistinctDisplayIds(ManualRows(before)) && Apart(ManualRows(before), Names(gts))
  {
    AnalyzeRenumbers(before, after, gts, assign, now);
    RenumberedDistinctIff(ManualRows(before), after, assign, Names(gts));
  }

  lemma GenerateDistinctIff(before: map<Uuid, Threat>, after: map<Uuid, Threat>, gts: seq<Generated>, ids: seq<Uuid>,
                            now: Time)
    requires Regenerated(before, after, gts, ids, now)
    ensures DistinctDisplayIds(after) <==>
              DistinctDisplayIds(OtherRows(before)) && Apart(OtherRows(before), Names(gts))
  {
    GenerateRenumbers(before, after, gts, ids, now);
    RenumberedDistinctIff(OtherRows(before), after, ids, Names(gts));
  }

  /** A manual threat's number is above every number in use. */
  lemma ManualKeepsDistinct(d: Digits, catalog: seq<CatalogEntry>, g: Register, body: ManualBody, id: Uuid, n: int,
                            now: Time, g': Register)
    requires ManualStep(d, catalog, g, body, id, n, now, g') && DigitTable(d) && DistinctDisplayIds(g.rows)
    ensures DistinctDisplayIds(g'.rows)
  {
    var r := ManualRow(catalog, body, DisplayId(n), now);
    if r.Ok? {
      assert r.value.displayId == DisplayId(n);
      ManualReads(d, n);
      forall x | x in g.rows ensures g.rows[x].displayId != DisplayId(n) {}
    }
  }

  // ---- All requests ----

  ghost predicate SameDisplayIds(rows: map<Uuid, Threat>, rows': map<Uuid, Threat>) {
    rows'.Keys == rows.Keys && forall id | id in rows :: rows'[id].displayId == rows[id].displayId
  }

  lemma SameDisplayIdsDistinct(rows: map<Uuid, Threat>, rows': map<Uuid, Threat>)
    requires SameDisplayIds(rows, rows')
    ensures DistinctDisplayIds(rows') <==> DistinctDisplayIds(rows)
  {
    if !DistinctDisplayIds(rows) {
      var a, b :| a in rows && b in rows && a != b && rows[a].displayId == rows[b].displayId;
      assert rows'[a].displayId == rows'[b].displayId;
    }
  }

  lemma TriageSameDisplayIds(g: Register, id: Uuid, b: TriageBody, now: Time)
    ensures SameDisplayIds(g.rows, Answer(g, Triage(g, id, b, now)).rows)
  {
    if id in g.rows { assert TriagedRow(g.rows[id], b, now).displayId == g.rows[id].displayId; }
  }

  lemma BulkSameDisplayIds(g: Register, b: BulkBody, now: Time)
    ensures SameDisplayIds(g.rows, Answer(g, BulkTriage(g, b, now)).rows)
  {
    forall id | id in g.rows ensures BulkRow(g.rows[id], b, now).displayId == g.rows[id].displayId {}
  }

  lemma QualifySameDisplayIds(g: Register, id: Uuid, b: QualifyBody, now: Time)
    ensures SameDisplayIds(g.rows, Answer(g, Qualify(g, id, b, now)).rows)
  {
    if id in g.rows { assert QualifiedRow(g.rows[id], b, now).displayId == g.rows[id].displayId; }
  }

  lemma ManualDistinctBefore(d: Digits, catalog: seq<CatalogEntry>, g: Register, body: ManualBody, id: Uuid, n: int,
                             now: Time, g': Register)
    requires ManualStep(d, catalog, g, body, id, n, now, g') && Keyed(g) && DistinctDisplayIds(g'.rows)
    ensures DistinctDisplayIds(g.rows)
  {
    if ManualRow(catalog, body, DisplayId(n), now).Ok? {
      forall a, b | a in g.rows && b in g.rows && a != b ensures g.rows[a].displayId != g.rows[b].displayId {
        assert g'.rows[a] == g.rows[a] && g'.rows[b] == g.rows[b];
      }
    }
  }

  /** What a request must start from, and what it must bring, to leave distinct display ids. */
  ghost predicate NumbersApart(g: Register, r: Request) {
    match r
    case Generate(gts, _, _) => DistinctDisplayIds(OtherRows(g.rows)) && Apart(OtherRows(g.rows), Names(gts))
    case Analyze(gts, _, _) => DistinctDisplayIds(ManualRows(g.rows)) && Apart(ManualRows(g.rows), Names(gts))
    case _ => DistinctDisplayIds(g.rows)
  }

  /** After any request display ids are distinct exactly when: for `generate` and `analyze`, the rows they keep
      unread and the new threats are numbered apart; for every other request, they were distinct before. */
  lemma StepDistinctIff(d: Digits, catalog: seq<CatalogEntry>, g: Register, r: Request, g': Register)
    requires DigitTable(d) && Keyed(g) && Step(d, catalog, g, r, g')
    ensures DistinctDisplayIds(g'.rows) <==> NumbersApart(g, r)
  {
    match r
    case Generate(gts, ids, now) => GenerateDistinctIff(g.rows, g'.rows, gts, ids, now);
    case Analyze(gts, assign, now) => AnalyzeDistinctIff(g.rows, g'.rows, gts, assign, now);
    case AddManual(body, id, n, now) =>
      if DistinctDisplayIds(g.rows) {
        ManualKeepsDistinct(d, catalog, g, body, id, n, now, g');
      } else if DistinctDisplayIds(g'.rows) {
        ManualDistinctBefore(d, catalog, g, body, id, n, now, g');
      }
    case TriageOne(id, b, now) =>
      TriageSameDisplayIds(g, id, b, now);
      SameDisplayIdsDistinct(g.rows, g'.rows);
    case TriageMany(b, now) =>
      BulkSameDisplayIds(g, b, now);
      SameDisplayIdsDistinct(g.rows, g'.rows);
    case QualifyOne(id, b, now) =>
      QualifySameDisplayIds(g, id, b, now);
      SameDisplayIdsDistinct(g.rows, g'.rows);
    case Recluster(_) =>
      SameDisplayIdsDistinct(g.rows, g'.rows);
  }

  // ---- Collisions in reachable registers ----

  /** Over runs display ids need not stay distinct: a manual threat, then an analysis that finds one threat. */
  lemma DisplayIdsCanCollide(d: Digits, catalog: seq<CatalogEntry>)
    returns (states: seq<Register>, requests: seq<Request>)
    requires DigitTable(d)
    ensures Run(d, catalog, states, requests) && states[0] == EMPTY_REGISTER && |states| == 3
    ensures DistinctDisplayIds(states[1].rows) && !DistinctDisplayIds(states[2].rows)
  {
    var body := ManualBody(None, None, Some("Custom"), None, None, Some([]));
    var gt := Generated("R-1", DisplayId(1), "Tampering", "", "High", "", [], [], None, FromRules, false, 50);
    var row := FirstManual(d, catalog, body);
    var g1 := Register(map[0 := row], map[0 := []], {0});
    var g2 := Register(map[0 := row, 1 := FreshRow(gt, 1)], map[0 := [], 1 := []], {0, 1});
    FirstAnalysis(row, gt, g1, g2);
    CollidingRows(row, FreshRow(gt, 1));
    var first, second := AddManual(body, 0, 1, 0), Request.Analyze([gt], [1], 1);
    states, requests := [EMPTY_REGISTER, g1, g2], [first, second];
    TwoSteps(d, catalog, EMPTY_REGISTER, first, g1, second, g2);
  }

  lemma CollidingRows(row: Threat, other: Threat)
    requires other.displayId == row.displayId
    ensures DistinctDisplayIds(map[0 := row]) && !DistinctDisplayIds(map[0 := row, 1 := other])
  {
    var rows := map[0 := row, 1 := other];
    assert rows[0].displayId == rows[1].displayId;
  }

  lemma FirstManual(d: Digits, catalog: seq<CatalogEntry>, body: ManualBody) returns (row: Threat)
    requires body == ManualBody(None, None, Some("Custom"), None, None, Some([]))
    ensures row.displayId == DisplayId(1) && row.source == Manual
    ensures ManualRow(catalog, body, DisplayId(1), 0) == Ok(row)
    ensures ManualStep(d, catalog, EMPTY_REGISTER, body, 0, 1, 0, Register(map[0 := row], map[0 := []], {0}))
  {
    assert Lookup(catalog, None) == None;
    row := BlankRow(0).(displayId := DisplayId(1), severity := "Medium", description := "Custom", stride := "Tampering",
                        subtype := Or(Some(Strip("Custom threat")), "Custom threat"));
    assert Strip("") == "";
    assert ManualRow(catalog, body, DisplayId(1), 0) == Ok(row);
  }

  lemma FirstAnalysis(row: Threat, gt: Generated, g1: Register, g2: Register)
    requires row.source == Manual
    requires g1 == Register(map[0 := row], map[0 := []], {0})
    requires g2 == Register(map[0 := row, 1 := FreshRow(gt, 1)], map[0 := [], 1 := []], {0, 1})
    ensures AnalyzeStep(g1, [gt], [1], 1, g2)
  {
    assert g2.audit == CarryAudit(g1, g2.rows);
    assert Group(g1.rows, IdentityOf(gt)) == {};
    assert Holds(g1.rows, g2.rows, 1, gt, 1);
  }

  /** `generate` collides with a manual threat just the same, no analysis needed. */
  lemma GenerateCanCollide(d: Digits, catalog: seq<CatalogEntry>)
    returns (states: seq<Register>, requests: seq<Request>)
    requires DigitTable(d)
    ensures Run(d, catalog, states, requests) && states[0] == EMPTY_REGISTER && |states| == 3
    ensures requests[0].AddManual? && requests[1].Generate?
    ensures DistinctDisplayIds(states[1].rows) && !DistinctDisplayIds(states[2].rows)
  {
    var body := ManualBody(None, None, Some("Custom"), None, None, Some([]));
    var gt := Generated("R-1", DisplayId(1), "Tampering", "", "High", "", [], [], None, FromRules, false, 50);
    var row := FirstManual(d, catalog, body);
    var t := GeneratedRow(gt, 1);
    var g1 := Register(map[0 := row], map[0 := []], {0});
    var g2 := Register(map[0 := row, 1 := t], map[0 := [], 1 := []], {0, 1});
    GeneratedSecond(gt, row, t, g1, g2);
    CollidingRows(row, t);
    var first, second := AddManual(body, 0, 1, 0), Request.Generate([gt], [1], 1);
    states, requests := [EMPTY_REGISTER, g1, g2], [first, second];
    TwoSteps(d, catalog, EMPTY_REGISTER, first, g1, second, g2);
  }
}
