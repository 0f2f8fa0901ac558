/** What an analysis and `generate` do to the register, read off the stored columns: which row each finding lands on,
    how many rows each finding has afterwards, and what every row holds. */
module AnalysisEffects {
  import opened Wrappers
  import opened Threats
  import opened Reconcile
  import opened ThreatSteps

  /** The row holds the finding: same rule (none reads as empty), same nodes in whatever order. */
  ghost predicate SameFinding(t: Threat, rule: string, nodes: multiset<Uuid>) {
    (if t.ruleId == None then "" else t.ruleId.value) == rule && multiset(t.nodeIds) == nodes
  }

  lemma IdentitiesMeet(t: Threat, gt: Generated)
    ensures RowIdentity(t) == IdentityOf(gt) <==> SameFinding(t, gt.ruleId, multiset(gt.nodeIds))
  {
    SameSortIffSameIds(t.nodeIds, gt.nodeIds);
  }

  /** A finding reuses only a row that an earlier analysis or `generate` stored for the same rule on the same nodes,
      and gets a new row only when every such row is already taken. */
  lemma AnalyzeLandsOnSame(g: Register, gts: seq<Generated>, assign: seq<Uuid>, now: Time, g': Register, j: nat)
    requires AnalyzeStep(g, gts, assign, now, g') && j < |gts|
    ensures assign[j] in g.rows ==>
              g.rows[assign[j]].source != Manual
              && SameFinding(g.rows[assign[j]], gts[j].ruleId, multiset(gts[j].nodeIds))
    ensures assign[j] !in g.rows ==>
              forall id | id in g.rows && g.rows[id].source != Manual
                          && SameFinding(g.rows[id], gts[j].ruleId, multiset(gts[j].nodeIds)) :: id in assign
  {
    assert Holds(g.rows, g'.rows, assign[j], gts[j], now);
    forall id | id in g.rows
      ensures RowIdentity(g.rows[id]) == IdentityOf(gts[j])
              <==> SameFinding(g.rows[id], gts[j].ruleId, multiset(gts[j].nodeIds))
    {
      IdentitiesMeet(g.rows[id], gts[j]);
    }
    if assign[j] !in g.rows {
      forall id | id in g.rows && g.rows[id].source != Manual
                  && SameFinding(g.rows[id], gts[j].ruleId, multiset(gts[j].nodeIds))
        ensures id in assign
      {
        assert id in Group(g.rows, IdentityOf(gts[j]));
      }
    }
  }

  // ---- As many rows as findings ----

  /** The findings of a rule on a multiset of nodes, by position. */
  function Findings(gts: seq<Generated>, rule: string, nodes: multiset<Uuid>): set<int> {
    set j | 0 <= j < |gts| && gts[j].ruleId == rule && multiset(gts[j].nodeIds) == nodes
  }

  lemma FindingsSnoc(gts: seq<Generated>, rule: string, nodes: multiset<Uuid>)
    requires gts != []
    ensures var n := |gts| - 1;
            var before, here := Findings(gts[..n], rule, nodes),
                                  gts[n].ruleId == rule && multiset(gts[n].nodeIds) == nodes;
            n !in before && Findings(gts, rule, nodes) == if here then before + {n} else before
  {
    var n := |gts| - 1;
    assert forall j | 0 <= j < n :: gts[..n][j] == gts[j];
  }

  function RowsAt(assign: seq<Uuid>, at: set<int>): set<Uuid>
    requires forall j | j in at :: 0 <= j < |assign|
  {
    set j | j in at :: assign[j]
  }

  lemma RowsAtAdd(assign: seq<Uuid>, at: set<int>, n: nat)
    requires Distinct(assign) && n < |assign| && forall j | j in at :: 0 <= j < n
    ensures RowsAt(assign[..n], at) == RowsAt(assign, at)
    ensures RowsAt(assign, at + {n}) == RowsAt(assign, at) + {assign[n]} && assign[n] !in RowsAt(assign, at)
  {
    assert forall j | j in at :: assign[..n][j] == assign[j];
  }

  /** As many rows as findings, when every finding has a row of its own. */
  lemma {:induction false} FindingsCount(gts: seq<Generated>, assign: seq<Uuid>, rule: string, nodes: multiset<Uuid>)
    requires |assign| == |gts| && Distinct(assign)
    ensures |RowsAt(assign, Findings(gts, rule, nodes))| == |Findings(gts, rule, nodes)|
  {
    if gts != [] {
      var n := |gts| - 1;
      var before := Findings(gts[..n], rule, nodes);
      FindingsCount(gts[..n], assign[..n], rule, nodes);
      FindingsSnoc(gts, rule, nodes);
      RowsAtAdd(assign, before, n);
      CountGrows(before, RowsAt(assign, before), n, assign[n]);
    }
  }

  lemma CountGrows(at: set<int>, rows: set<Uuid>, j: int, id: Uuid)
    requires |rows| == |at| && j !in at && id !in rows
    ensures |rows + {id}| == |at + {j}|
  {}

  lemma LandedColumns(g: Register, gts: seq<Generated>, assign: seq<Uuid>, now: Time, g': Register, j: nat)
    requires AnalyzeStep(g, gts, assign, now, g') && j < |gts|
    ensures assign[j] in g'.rows
            && var t := g'.rows[assign[j]];
               t.source != Manual && t.ruleId == Some(gts[j].ruleId) && t.nodeIds == gts[j].nodeIds
  {
    assert Holds(g.rows, g'.rows, assign[j], gts[j], now);
  }

  /** For each rule and each multiset of nodes there are afterwards exactly as many rows that are not manual as
      findings, whatever was there before. */
  lemma RowsPerFinding(g: Register, gts: seq<Generated>, assign: seq<Uuid>, now: Time, g': Register,
                       rule: string, nodes: multiset<Uuid>)
    requires AnalyzeStep(g, gts, assign, now, g')
    ensures |set id | id in g'.rows && g'.rows[id].source != Manual
                      && g'.rows[id].ruleId == Some(rule) && multiset(g'.rows[id].nodeIds) == nodes|
         == |set j | 0 <= j < |gts| && gts[j].ruleId == rule && multiset(gts[j].nodeIds) == nodes|
  {
    var rows := set id | id in g'.rows && g'.rows[id].source != Manual
                         && g'.rows[id].ruleId == Some(rule) && multiset(g'.rows[id].nodeIds) == nodes;
    var found := Findings(gts, rule, nodes);
    forall j | 0 <= j < |gts|
      ensures assign[j] in g'.rows && g'.rows[assign[j]].source != Manual
      ensures g'.rows[assign[j]].ruleId == Some(gts[j].ruleId) && g'.rows[assign[j]].nodeIds == gts[j].nodeIds
    {
      LandedColumns(g, gts, assign, now, g', j);
    }
    var image := RowsAt(assign, found);
    assert rows == image by {
      forall id | id in rows ensures id in image {
        assert id in assign;
        var j :| 0 <= j < |assign| && assign[j] == id;
      }
    }
    FindingsCount(gts, assign, rule, nodes);
  }

  // ---- What the rows hold ----

  /** The columns both endpoints copy from the finding; an empty rationale is stored as none. */
  ghost predicate ColumnsOf(t: Threat, gt: Generated) {
    && t.displayId == gt.displayId && t.description == gt.description && t.stride == gt.stride
    && t.subtype == gt.subtype && t.severity == gt.severity && t.ruleId == Some(gt.ruleId)
    && t.nodeIds == gt.nodeIds && t.edgeIds == gt.edgeIds
    && t.rationale == (if gt.rationale == Some("") then None else gt.rationale)
  }

  /** Nothing an analyst could have written. */
  ghost predicate Undecided(t: Threat, now: Time) {
    && t.status == Open && t.closedAt == None && t.dismissReason == None && t.falsePositive == None
    && t.plan == None && t.owner == None && t.dueDate == None && t.notes == None && t.control == "none"
    && t.analystScore == None && t.analystRationale == None && t.note == None && t.qualifiedAt == None
    && t.clusterId == None && t.createdAt == now
  }

  /** Where the finding came from, as three columns. */
  ghost predicate OriginStored(t: Threat, gt: Generated) {
    && (t.source == Rules <==> gt.origin == FromRules) && (t.source == AI <==> gt.origin == FromAI)
    && (t.source == AIRules <==> gt.origin == FromBoth)
    && (t.aiEnhanced <==> gt.origin != FromRules) && t.providerManaged == gt.providerManaged
  }

  /** The stored score is the finding's alone, or the 40/60 mean with the analyst's, to the nearest integer. */
  ghost predicate Scored(t: Threat, auto: int) {
    && t.autoScore == Some(auto) && t.score.Some?
    && (t.analystScore == None ==> t.score == Some(auto))
    && (t.analystScore.Some? && 0 <= auto <= 100 && 0 <= t.analystScore.value <= 100 ==>
          -5 < 10 * t.score.value - (4 * auto + 6 * t.analystScore.value) < 5)
  }

  ghost predicate NamedSeverity(severity: string) {
    severity == "Critical" || severity == "High" || severity == "Medium" || severity == "Low"
  }

  /** What an analysis leaves behind for finding `j`: its own columns everywhere, a clean slate on a new row, and on a
      reused row every decision as it was. */
  lemma AnalyzeStores(g: Register, gts: seq<Generated>, assign: seq<Uuid>, now: Time, g': Register, j: nat)
    requires AnalyzeStep(g, gts, assign, now, g') && j < |gts|
    ensures assign[j] in g'.rows
    ensures var t := g'.rows[assign[j]];
            ColumnsOf(t, gts[j]) && OriginStored(t, gts[j]) && Scored(t, gts[j].score) && t.clusterId == None
    ensures assign[j] in g.rows ==> SameDecisions(g.rows[assign[j]], g'.rows[assign[j]])
    ensures assign[j] !in g.rows ==>
              Undecided(g'.rows[assign[j]], now)
              && (NamedSeverity(gts[j].severity) ==> g'.rows[assign[j]].residual == Some(gts[j].severity))
  {
    assert Holds(g.rows, g'.rows, assign[j], gts[j], now);
    if assign[j] in g.rows {
      RefreshedStores(g.rows[assign[j]], gts[j]);
    } else {
      FreshStores(gts[j], now);
    }
  }

  lemma RefreshedStores(t: Threat, gt: Generated)
    ensures var t' := Refreshed(t, gt);
            ColumnsOf(t', gt) && OriginStored(t', gt) && Scored(t', gt.score) && t'.clusterId == None
            && SameDecisions(t, t')
  {}

  lemma FreshStores(gt: Generated, now: Time)
    ensures var t := FreshRow(gt, now);
            ColumnsOf(t, gt) && OriginStored(t, gt) && Scored(t, gt.score) && Undecided(t, now)
            && (NamedSeverity(gt.severity) ==> t.residual == Some(gt.severity))
  {}

  /** Manual rows are not touched; a generated row that no finding landed on is gone, and nothing else is. */
  lemma AnalyzeKeeps(g: Register, gts: seq<Generated>, assign: seq<Uuid>, now: Time, g': Register, id: Uuid)
    requires AnalyzeStep(g, gts, assign, now, g') && id in g.rows
    ensures g.rows[id].source == Manual ==> id in g'.rows && g'.rows[id] == g.rows[id] && id !in assign
    ensures g.rows[id].source != Manual ==> (id in g'.rows <==> id in assign)
    ensures id in g'.rows ==> Log(g', id) == Log(g, id)
  {
    if id in assign {
      var j :| 0 <= j < |assign| && assign[j] == id;
      assert Holds(g.rows, g'.rows, assign[j], gts[j], now);
    }
  }

  /** `generate` replaces exactly the rows whose source is "Rules", by unscored and unrated ones. */
  lemma GenerateStores(g: Register, gts: seq<Generated>, ids: seq<Uuid>, now: Time, g': Register)
    requires GenerateStep(g, gts, ids, now, g')
    ensures forall j | 0 <= j < |gts| ::
              ids[j] !in g.rows && ids[j] in g'.rows
              && var t := g'.rows[ids[j]];
                 ColumnsOf(t, gts[j]) && Undecided(t, now) && t.source == Rules && !t.aiEnhanced && !t.providerManaged
                 && t.residual == None && t.score == None && t.autoScore == None
    ensures forall id | id in g.rows ::
              if g.rows[id].source == Rules then id !in g'.rows else id in g'.rows && g'.rows[id] == g.rows[id]
    ensures forall id | id in g'.rows && id !in g.rows :: id in ids
  {
    forall j | 0 <= j < |gts|
      ensures ids[j] !in g.rows && ids[j] in g'.rows && g'.rows[ids[j]] == GeneratedRow(gts[j], now)
      ensures var t := GeneratedRow(gts[j], now);
              ColumnsOf(t, gts[j]) && Undecided(t, now) && t.source == Rules && !t.aiEnhanced && !t.providerManaged
              && t.residual == None && t.score == None && t.autoScore == None
    {
      GeneratedStores(gts[j], now);
    }
  }

  lemma GeneratedStores(gt: Generated, now: Time)
    ensures var t := GeneratedRow(gt, now);
            ColumnsOf(t, gt) && Undecided(t, now) && t.source == Rules && !t.aiEnhanced && !t.providerManaged
            && t.residual == None && t.score == None && t.autoScore == None
  {}
}
