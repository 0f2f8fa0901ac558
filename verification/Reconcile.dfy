/** Re-analysis: matching freshly generated threats to the rows already in the register. */
module Reconcile {
  import opened Wrappers
  import opened Threats

  /** Where a generated threat came from; it is never "Manual". */
  datatype Origin = FromRules | FromAI | FromBoth

  /** A generated threat with the score the (unmodelled) scorer gives it. */
  datatype Generated = Generated(
    ruleId: string, displayId: string, stride: string, subtype: string, severity: string, description: string,
    nodeIds: seq<Uuid>, edgeIds: seq<Uuid>, rationale: Option<string>, origin: Origin, providerManaged: bool,
    score: int)

  function SourceOf(o: Origin): Source {
    match o case FromRules => Rules case FromAI => AI case FromBoth => AIRules
  }

  // ---- Identity: rule and sorted node ids ----

  function Insert(x: Uuid, s: seq<Uuid>): seq<Uuid> {
    if s == [] || x <= s[0] then [x] + s else [s[0]] + Insert(x, s[1..])
  }

  /** `sorted(...)`. */
  function SortIds(s: seq<Uuid>): seq<Uuid> {
    if s == [] then [] else Insert(s[0], SortIds(s[1..]))
  }

  ghost predicate Ascending(s: seq<Uuid>) {
    forall i, j | 0 <= i < j < |s| :: s[i] <= s[j]
  }

  lemma {:induction false} InsertKeeps(x: Uuid, s: seq<Uuid>)
    ensures multiset(Insert(x, s)) == multiset(s) + multiset{x}
  {
    if s != [] && x > s[0] {
      InsertKeeps(x, s[1..]);
      assert s == [s[0]] + s[1..];
    }
  }

  lemma InsertedFrom(x: Uuid, s: seq<Uuid>, y: Uuid)
    requires y in Insert(x, s)
    ensures y == x || y in s
  {
    InsertKeeps(x, s);
    assert y in multiset(Insert(x, s));
  }

  lemma {:induction false} InsertSorts(x: Uuid, s: seq<Uuid>)
    requires Ascending(s)
    ensures Ascending(Insert(x, s))
  {
    if s != [] && x > s[0] {
      var rest := Insert(x, s[1..]);
      InsertSorts(x, s[1..]);
      forall i | 0 <= i < |rest| ensures s[0] <= rest[i] {
        InsertedFrom(x, s[1..], rest[i]);
      }
    }
  }

  lemma {:induction false} SortIdsSorts(s: seq<Uuid>)
    ensures Ascending(SortIds(s)) && multiset(SortIds(s)) == multiset(s)
  {
    if s != [] {
      SortIdsSorts(s[1..]);
      InsertSorts(s[0], SortIds(s[1..]));
      InsertKeeps(s[0], SortIds(s[1..]));
      assert s == [s[0]] + s[1..];
    }
  }

  lemma AscendingHead(a: seq<Uuid>, x: Uuid)
    requires Ascending(a) && x in a
    ensures a[0] <= x
  {
    var i :| 0 <= i < |a| && a[i] == x;
  }

  lemma TailMultiset(a: seq<Uuid>)
    requires a != []
    ensures multiset(a[1..]) == multiset(a) - multiset{a[0]}
  {
    assert a == [a[0]] + a[1..];
  }

  lemma SameHead(a: seq<Uuid>, b: seq<Uuid>)
    requires Ascending(a) && Ascending(b) && multiset(a) == multiset(b) && a != []
    ensures b != [] && a[0] == b[0]
  {
    assert a[0] in multiset(b);
    assert b[0] in multiset(a);
    AscendingHead(a, b[0]);
    AscendingHead(b, a[0]);
  }

  lemma {:induction false} AscendingUnique(a: seq<Uuid>, b: seq<Uuid>)
    requires Ascending(a) && Ascending(b) && multiset(a) == multiset(b)
    ensures a == b
  {
    if a == [] {
      assert |b| == |multiset(b)| == 0;
    } else {
      SameHead(a, b);
      TailMultiset(a);
      TailMultiset(b);
      AscendingUnique(a[1..], b[1..]);
      assert a == [a[0]] + a[1..] && b == [b[0]] + b[1..];
    }
  }

  /** Sorting makes the identity blind to the order of the node ids, and to nothing else. */
  lemma SameSortIffSameIds(a: seq<Uuid>, b: seq<Uuid>)
    ensures SortIds(a) == SortIds(b) <==> multiset(a) == multiset(b)
  {
    SortIdsSorts(a);
    SortIdsSorts(b);
    if multiset(a) == multiset(b) {
      AscendingUnique(SortIds(a), SortIds(b));
    }
  }

  datatype Identity = Identity(ruleId: string, nodes: seq<Uuid>)

  function RowIdentity(t: Threat): Identity {
    Identity(if t.ruleId.Some? then t.ruleId.value else "", SortIds(t.nodeIds))
  }

  function IdentityOf(gt: Generated): Identity {
    Identity(gt.ruleId, SortIds(gt.nodeIds))
  }

  // ---- What a match and a miss write ----

  /** The in-place update: everything the generator decides is overwritten, everything the analyst
      decided - status, reasons, analyst score, qualification - stays. */
  function Refreshed(t: Threat, gt: Generated): Threat {
    t.(clusterId := None,
       displayId := gt.displayId, description := gt.description, stride := gt.stride, subtype := gt.subtype,
       severity := gt.severity, source := SourceOf(gt.origin), ruleId := Some(gt.ruleId),
       aiEnhanced := gt.origin != FromRules, providerManaged := gt.providerManaged,
       nodeIds := gt.nodeIds, edgeIds := gt.edgeIds, rationale := OrNone(gt.rationale),
       autoScore := Some(gt.score),
       score := Some(if t.analystScore.Some? then BlendScores(gt.score, t.analystScore.value) else gt.score),
       residual := if t.severity != gt.severity || Blank(t.residual) then Some(DeriveResidual(gt.severity, t.control))
                   else t.residual)
  }

  function FreshRow(gt: Generated, now: Time): Threat {
    Threat(gt.displayId, gt.description, gt.stride, gt.subtype, gt.severity, SourceOf(gt.origin), Open, None,
           Some(gt.ruleId), gt.origin != FromRules, gt.providerManaged, gt.nodeIds, gt.edgeIds, OrNone(gt.rationale),
           None, None, None, None, "none", Some(DeriveResidual(gt.severity, "none")), None,
           Some(gt.score), Some(gt.score), None, None, None, None, None, None, now)
  }

  // ---- The sync as a relation: `assign[j]` is the row generated threat `j` ended up on ----

  predicate IsGenerated(t: Threat) {
    t.source != Manual
  }

  /** `existing_by_identity[k]`: the generated rows with identity `k`. */
  function Group(rows: map<Uuid, Threat>, k: Identity): set<Uuid> {
    set id | id in rows && IsGenerated(rows[id]) && RowIdentity(rows[id]) == k
  }

  /** Row `id` now holds generated threat `gt`: refreshed in place if it was there, new otherwise. */
  ghost predicate Holds(before: map<Uuid, Threat>, after: map<Uuid, Threat>, id: Uuid, gt: Generated, now: Time) {
    && id in after
    && if id in before then
         IsGenerated(before[id]) && RowIdentity(before[id]) == IdentityOf(gt) && after[id] == Refreshed(before[id], gt)
       else
         after[id] == FreshRow(gt, now)
  }

  /** A threat gets a new row only when every old row with its identity is taken. */
  ghost predicate Greedy(before: map<Uuid, Threat>, gts: seq<Generated>, assign: seq<Uuid>)
    requires |assign| == |gts|
  {
    forall j | 0 <= j < |gts| && assign[j] !in before :: forall id <- Group(before, IdentityOf(gts[j])) :: id in assign
  }

  ghost predicate Reconciled(before: map<Uuid, Threat>, after: map<Uuid, Threat>, gts: seq<Generated>,
                             assign: seq<Uuid>, now: Time) {
    && |assign| == |gts| && Distinct(assign) && Greedy(before, gts, assign)
    && (forall j | 0 <= j < |gts| :: Holds(before, after, assign[j], gts[j], now))
    && (forall id :: id in after <==> id in assign || (id in before && !IsGenerated(before[id])))
    && (forall id | id in before && !IsGenerated(before[id]) :: after[id] == before[id])
  }

  function Count(gts: seq<Generated>, k: Identity): nat {
    if gts == [] then 0
    else Count(gts[..|gts| - 1], k) + if IdentityOf(gts[|gts| - 1]) == k then 1 else 0
  }

  function Identities(gts: seq<Generated>): (r: seq<Identity>)
    ensures |r| == |gts|
  {
    seq(|gts|, j requires 0 <= j < |gts| => IdentityOf(gts[j]))
  }

  lemma {:induction false} CountIsMultiplicity(gts: seq<Generated>, k: Identity)
    ensures Count(gts, k) == multiset(Identities(gts))[k]
  {
    if gts == [] {
      assert Identities(gts) == [];
    } else {
      var init, last := gts[..|gts| - 1], gts[|gts| - 1];
      CountIsMultiplicity(init, k);
      assert Identities(gts) == Identities(init) + [IdentityOf(last)];
    }
  }

  /** The rows that generated threats of identity `k` landed on. */
  function Landed(gts: seq<Generated>, assign: seq<Uuid>, k: Identity): set<Uuid>
    requires |assign| == |gts|
  {
    set j | 0 <= j < |gts| && IdentityOf(gts[j]) == k :: assign[j]
  }

  lemma LandedSnoc(gts: seq<Generated>, assign: seq<Uuid>, k: Identity)
    requires |assign| == |gts| > 0 && Distinct(assign)
    ensures var n := |gts| - 1;
            var before := Landed(gts[..n], assign[..n], k);
            assign[n] !in before
            && Landed(gts, assign, k) == if IdentityOf(gts[n]) == k then before + {assign[n]} else before
  {
    var n := |gts| - 1;
    var before := Landed(gts[..n], assign[..n], k);
    forall id ensures id in Landed(gts, assign, k) <==> id in before || (id == assign[n] && IdentityOf(gts[n]) == k) {
      if id in Landed(gts, assign, k) {
        var j :| 0 <= j < |gts| && IdentityOf(gts[j]) == k && assign[j] == id;
        if j < n { assert gts[..n][j] == gts[j] && assign[..n][j] == id; }
      }
      if id in before {
        var j :| 0 <= j < n && IdentityOf(gts[..n][j]) == k && assign[..n][j] == id;
        assert gts[j] == gts[..n][j] && assign[j] == id;
      }
    }
  }

  lemma {:induction false} LandedCount(gts: seq<Generated>, assign: seq<Uuid>, k: Identity)
    requires |assign| == |gts| && Distinct(assign)
    ensures |Landed(gts, assign, k)| == Count(gts, k)
  {
    if gts != [] {
      var n := |gts| - 1;
      LandedCount(gts[..n], assign[..n], k);
      LandedSnoc(gts, assign, k);
    }
  }

  lemma RefreshedIdentity(t: Threat, gt: Generated, now: Time)
    ensures RowIdentity(Refreshed(t, gt)) == IdentityOf(gt) && IsGenerated(Refreshed(t, gt))
    ensures RowIdentity(FreshRow(gt, now)) == IdentityOf(gt) && IsGenerated(FreshRow(gt, now))
  {}

  lemma GroupIsLanded(before: map<Uuid, Threat>, after: map<Uuid, Threat>, gts: seq<Generated>, assign: seq<Uuid>,
                      now: Time, k: Identity)
    requires Reconciled(before, after, gts, assign, now)
    ensures Group(after, k) == Landed(gts, assign, k)
  {
    forall j | 0 <= j < |gts|
      ensures assign[j] in after && IsGenerated(after[assign[j]]) && RowIdentity(after[assign[j]]) == IdentityOf(gts[j])
    {
      assert Holds(before, after, assign[j], gts[j], now);
      if assign[j] in before { RefreshedIdentity(before[assign[j]], gts[j], now); }
    }
    forall id | id in Group(after, k) ensures id in Landed(gts, assign, k) {
      assert id in assign;
      var j :| 0 <= j < |assign| && assign[j] == id;
      assert IdentityOf(gts[j]) == k;
    }
  }

  /** The generated rows mirror the generated list: per identity, as many rows as its multiplicity there. */
  lemma IdentitiesMirrorGenerated(before: map<Uuid, Threat>, after: map<Uuid, Threat>, gts: seq<Generated>,
                                  assign: seq<Uuid>, now: Time, k: Identity)
    requires Reconciled(before, after, gts, assign, now)
    ensures |Group(after, k)| == Count(gts, k) == multiset(Identities(gts))[k]
  {
    GroupIsLanded(before, after, gts, assign, now, k);
    LandedCount(gts, assign, k);
    CountIsMultiplicity(gts, k);
  }

  lemma SubsetCard(a: set<Uuid>, b: set<Uuid>)
    requires a <= b
    ensures |a| <= |b|
    ensures |a| == |b| ==> a == b
  {
    assert b == a + (b - a) && |b| == |a| + |b - a|;
    if |a| == |b| {
      assert b - a == {};
    }
  }

  lemma LandedRow(before: map<Uuid, Threat>, after: map<Uuid, Threat>, gts: seq<Generated>, assign: seq<Uuid>,
                  now: Time, k: Identity, id: Uuid)
    requires Reconciled(before, after, gts, assign, now) && id in Landed(gts, assign, k)
    ensures id in after && (id in before <==> id in Group(before, k))
    ensures id !in before ==> forall x <- Group(before, k) :: x in assign
  {
    var j :| 0 <= j < |gts| && IdentityOf(gts[j]) == k && assign[j] == id;
    assert Holds(before, after, assign[j], gts[j], now);
  }

  lemma SurvivorLanded(before: map<Uuid, Threat>, after: map<Uuid, Threat>, gts: seq<Generated>, assign: seq<Uuid>,
                       now: Time, k: Identity, id: Uuid)
    requires Reconciled(before, after, gts, assign, now) && id in Group(before, k) && id in assign
    ensures id in Landed(gts, assign, k)
  {
    var j :| 0 <= j < |assign| && assign[j] == id;
    assert Holds(before, after, assign[j], gts[j], now);
  }

  lemma SurvivorsAreLanded(before: map<Uuid, Threat>, after: map<Uuid, Threat>, gts: seq<Generated>,
                           assign: seq<Uuid>, now: Time, k: Identity)
    requires Reconciled(before, after, gts, assign, now)
    ensures Group(before, k) * after.Keys == Group(before, k) * Landed(gts, assign, k)
  {
    forall id ensures id in Group(before, k) * after.Keys <==> id in Group(before, k) * Landed(gts, assign, k) {
      if id in Group(before, k) && id in after {
        assert id in assign;
        SurvivorLanded(before, after, gts, assign, now, k, id);
      }
      if id in Landed(gts, assign, k) {
        LandedRow(before, after, gts, assign, now, k, id);
      }
    }
  }

  /** Either every threat of the identity found an old row, or every old row was taken. */
  lemma OneSideExhausted(before: map<Uuid, Threat>, after: map<Uuid, Threat>, gts: seq<Generated>,
                         assign: seq<Uuid>, now: Time, k: Identity)
    requires Reconciled(before, after, gts, assign, now)
    ensures Landed(gts, assign, k) <= Group(before, k) || Group(before, k) <= Landed(gts, assign, k)
  {
    if id :| id in Landed(gts, assign, k) && id !in Group(before, k) {
      LandedRow(before, after, gts, assign, now, k, id);
      forall x | x in Group(before, k) ensures x in Landed(gts, assign, k) {
        SurvivorLanded(before, after, gts, assign, now, k, x);
      }
    }
  }

  lemma NestedMeet(a: set<Uuid>, b: set<Uuid>)
    requires a <= b || b <= a
    ensures |a * b| == if |a| <= |b| then |a| else |b|
  {
    if a <= b {
      assert a * b == a;
      SubsetCard(a, b);
    } else {
      assert a * b == b;
      SubsetCard(b, a);
    }
  }

  /** For each identity exactly min(existing, generated) of the old rows survive. */
  lemma SurvivorsPerIdentity(before: map<Uuid, Threat>, after: map<Uuid, Threat>, gts: seq<Generated>,
                             assign: seq<Uuid>, now: Time, k: Identity)
    requires Reconciled(before, after, gts, assign, now)
    ensures var existing := |Group(before, k)|;
            |Group(before, k) * after.Keys| == if existing <= Count(gts, k) then existing else Count(gts, k)
  {
    SurvivorsAreLanded(before, after, gts, assign, now, k);
    OneSideExhausted(before, after, gts, assign, now, k);
    NestedMeet(Group(before, k), Landed(gts, assign, k));
    LandedCount(gts, assign, k);
  }

  // ---- Analysing again changes no decision ----

  /** What re-analysis never touches on a row it keeps. */
  ghost predicate SameDecisions(t: Threat, t': Threat) {
    && t'.status == t.status && t'.dismissReason == t.dismissReason && t'.closedAt == t.closedAt
    && t'.analystScore == t.analystScore && t'.analystRationale == t.analystRationale && t'.note == t.note
    && t'.falsePositive == t.falsePositive && t'.qualifiedAt == t.qualifiedAt && t'.createdAt == t.createdAt
    && t'.owner == t.owner && t'.plan == t.plan && t'.dueDate == t.dueDate && t'.notes == t.notes
    && t'.control == t.control
  }

  lemma KeptRow(before: map<Uuid, Threat>, after: map<Uuid, Threat>, gts: seq<Generated>, assign: seq<Uuid>,
                now: Time, id: Uuid)
    requires Reconciled(before, after, gts, assign, now) && id in before && id in after
    ensures SameDecisions(before[id], after[id]) && RowIdentity(after[id]) == RowIdentity(before[id])
    ensures IsGenerated(after[id]) <==> IsGenerated(before[id])
  {
    if IsGenerated(before[id]) {
      var j :| 0 <= j < |assign| && assign[j] == id;
      assert Holds(before, after, assign[j], gts[j], now);
      RefreshedIdentity(before[id], gts[j], now);
    }
  }

  lemma {:induction false} SameCounts(gts: seq<Generated>, gts': seq<Generated>, k: Identity)
    requires |gts'| == |gts| && forall j | 0 <= j < |gts| :: IdentityOf(gts'[j]) == IdentityOf(gts[j])
    ensures Count(gts', k) == Count(gts, k)
  {
    if gts != [] {
      SameCounts(gts[..|gts| - 1], gts'[..|gts| - 1], k);
    }
  }

  /** If the register already mirrors what is generated, the sync inserts nothing and deletes nothing. */
  lemma MirroredSyncKeepsRows(before: map<Uuid, Threat>, after: map<Uuid, Threat>, gts: seq<Generated>,
                              assign: seq<Uuid>, now: Time)
    requires Reconciled(before, after, gts, assign, now)
    requires forall k :: |Group(before, k)| == Count(gts, k)
    ensures after.Keys == before.Keys
    ensures forall id | id in before :: SameDecisions(before[id], after[id])
  {
    forall id | id in before ensures id in after {
      if IsGenerated(before[id]) {
        var k := RowIdentity(before[id]);
        SurvivorsPerIdentity(before, after, gts, assign, now, k);
        SubsetCard(Group(before, k) * after.Keys, Group(before, k));
        assert id in Group(before, k);
      }
    }
    forall id | id in after ensures id in before {
      if id in assign {
        var j :| 0 <= j < |assign| && assign[j] == id;
        NothingNew(before, after, gts, assign, now, IdentityOf(gts[j]));
        assert id in Landed(gts, assign, IdentityOf(gts[j]));
      }
    }
    forall id | id in before ensures SameDecisions(before[id], after[id]) {
      KeptRow(before, after, gts, assign, now, id);
    }
  }

  lemma NothingNew(before: map<Uuid, Threat>, after: map<Uuid, Threat>, gts: seq<Generated>, assign: seq<Uuid>,
                   now: Time, k: Identity)
    requires Reconciled(before, after, gts, assign, now) && |Group(before, k)| == Count(gts, k)
    ensures Landed(gts, assign, k) == Group(before, k)
  {
    LandedCount(gts, assign, k);
    OneSideExhausted(before, after, gts, assign, now, k);
    if Landed(gts, assign, k) <= Group(before, k) {
      SubsetCard(Landed(gts, assign, k), Group(before, k));
    } else {
      SubsetCard(Group(before, k), Landed(gts, assign, k));
    }
  }
}
