/** What one review request stores: the columns it writes and the entries it appends, read off the request's fields. */
module ReviewEffects {
  import opened Wrappers
  import opened PyText
  import opened Threats
  import opened ThreatCatalog
  import opened ThreatSteps

  ghost predicate Given(s: Option<string>) {
    s.Some? && s.value != ""
  }

  /** Mitigated, accepted and dismissed threats are closed, open and in-progress ones are not. */
  ghost predicate Closes(s: Status) {
    match s
    case Open => false
    case InProgress => false
    case Mitigated => true
    case Accepted => true
    case Dismissed => true
  }

  ghost function ChangedTo(s: Status): string {
    match s
    case Open => "Status changed to Open"
    case InProgress => "Status changed to In Progress"
    case Mitigated => "Status changed to Mitigated"
    case Accepted => "Status changed to Accepted"
    case Dismissed => "Status changed to Dismissed"
  }

  /** Only row `id` and its trail may have changed. */
  ghost predicate OnlyRow(g: Register, g': Register, id: Uuid) {
    && g'.rows.Keys == g.rows.Keys && g'.issued == g.issued
    && forall x | x in g.rows && x != id :: g'.rows[x] == g.rows[x] && Log(g', x) == Log(g, x)
  }

  // ---- Triage ----

  /** The status is the one sent, the closing time follows from it, and an accepted threat loses its reason.  Fields
      that were left out stay; severity and control sent without a residual risk derive one. */
  ghost predicate TriageStored(t: Threat, b: TriageBody, now: Time, t': Threat) {
    && t'.status == b.status && t'.closedAt == (if Closes(b.status) then Some(now) else None)
    && t'.dismissReason == (if b.status == Accepted then None else b.dismissReason)
    && t'.severity == (if b.severity == None then t.severity else b.severity.value)
    && t'.control == (if b.control == None then t.control else b.control.value)
    && t'.plan == (if b.plan == None then t.plan else b.plan)
    && t'.owner == (if b.owner == None then t.owner else b.owner)
    && t'.dueDate == (if b.dueDate == None then t.dueDate else b.dueDate)
    && t'.notes == (if b.notes == None then t.notes else b.notes)
    && t'.residual == (if b.residual.Some? then b.residual
                       else if b.severity == None && b.control == None && Given(t.residual) then t.residual
                       else Some(DeriveResidual(t'.severity, t'.control)))
    && t' == t.(status := t'.status, closedAt := t'.closedAt, dismissReason := t'.dismissReason,
                severity := t'.severity, control := t'.control, plan := t'.plan, owner := t'.owner,
                dueDate := t'.dueDate, notes := t'.notes, residual := t'.residual)
  }

  /** The first entry carries the status change and the reason: the dismissal's, else the notes, else a stock text. */
  ghost predicate StatusEntryOf(e: Entry, t: Threat, b: TriageBody) {
    && e.Triaged? && e.from == t.status && e.to == b.status
    && e.reason == (if Given(b.dismissReason) then b.dismissReason.value
                    else if Given(b.notes) then b.notes.value
                    else ChangedTo(b.status))
  }

  ghost function KnownControl(c: string): string {
    if c == "none" || c == "partial" || c == "substantial" || c == "full" then c else "none"
  }

  /** One more entry each for an owner, a control or a severity that was sent and differs from what was stored. */
  ghost predicate OtherEntriesOf(entries: seq<Entry>, t: Threat, b: TriageBody) {
    && (forall owner :: OwnerAssigned(t.status, b.status, owner) in entries <==>
          b.owner == Some(owner) && t.owner != Some(owner))
    && (forall control :: ControlUpdated(t.status, b.status, control) in entries <==>
          b.control == Some(control) && control != KnownControl(t.control))
    && (forall to :: SeverityUpdated(t.severity, to) in entries <==> b.severity == Some(to) && to != t.severity)
    && |entries| == (if b.owner.Some? && b.owner != t.owner then 1 else 0)
                    + (if b.control.Some? && b.control.value != KnownControl(t.control) then 1 else 0)
                    + (if b.severity.Some? && b.severity.value != t.severity then 1 else 0)
  }

  lemma TriageStores(g: Register, id: Uuid, b: TriageBody, now: Time)
    ensures Triage(g, id, b, now) == Err(UnknownThreat) <==> id !in g.rows
    ensures Triage(g, id, b, now).Ok? <==> id in g.rows && !(b.status == Dismissed && !Given(b.dismissReason))
    ensures Triage(g, id, b, now).Ok? ==>
              var g', n := Triage(g, id, b, now).value, |Log(g, id)|;
              && OnlyRow(g, g', id) && TriageStored(g.rows[id], b, now, g'.rows[id])
              && |Log(g', id)| > n && Log(g', id)[..n] == Log(g, id)
              && StatusEntryOf(Log(g', id)[n], g.rows[id], b)
              && OtherEntriesOf(Log(g', id)[n + 1..], g.rows[id], b)
  {
    if Triage(g, id, b, now).Ok? {
      TriageRow(g, id, b, now);
      TriageTrail(g, id, b, now);
    }
  }

  lemma TriageRow(g: Register, id: Uuid, b: TriageBody, now: Time)
    requires Triage(g, id, b, now).Ok?
    ensures var g' := Triage(g, id, b, now).value;
            OnlyRow(g, g', id) && TriageStored(g.rows[id], b, now, g'.rows[id])
  {
    TriageRowStores(g.rows[id], b, now);
  }

  lemma TriageTrail(g: Register, id: Uuid, b: TriageBody, now: Time)
    requires Triage(g, id, b, now).Ok?
    ensures var g', n := Triage(g, id, b, now).value, |Log(g, id)|;
            && |Log(g', id)| > n && Log(g', id)[..n] == Log(g, id)
            && StatusEntryOf(Log(g', id)[n], g.rows[id], b)
            && OtherEntriesOf(Log(g', id)[n + 1..], g.rows[id], b)
  {
    var t := g.rows[id];
    EntriesStored(t, b);
    AppendedLog(Log(g, id), TriageEntries(t, b), Log(Triage(g, id, b, now).value, id));
  }

  lemma AppendedLog(log: seq<Entry>, entries: seq<Entry>, log': seq<Entry>)
    requires entries != [] && log' == log + entries
    ensures |log'| > |log| && log'[..|log|] == log && log'[|log|] == entries[0] && log'[|log| + 1..] == entries[1..]
  {}

  lemma TriageRowStores(t: Threat, b: TriageBody, now: Time)
    ensures TriageStored(t, b, now, TriagedRow(t, b, now))
  {}

  lemma EntriesStored(t: Threat, b: TriageBody)
    ensures StatusEntryOf(TriageEntries(t, b)[0], t, b) && OtherEntriesOf(TriageEntries(t, b)[1..], t, b)
  {
    var owner := if b.owner.Some? && b.owner != t.owner
                 then [OwnerAssigned(t.status, b.status, b.owner.value)] else [];
    var control := if b.control.Some? && b.control.value != NormalControl(t.control)
                   then [ControlUpdated(t.status, b.status, b.control.value)] else [];
    var severity := if b.severity.Some? && b.severity.value != t.severity
                    then [SeverityUpdated(t.severity, b.severity.value)] else [];
    var first := Triaged(t.status, b.status, TriageReason(b));
    assert TriageEntries(t, b) == [first] + owner + control + severity;
    FirstAndRest(first, owner, control, severity);
    StatusEntryStored(t, b);
    OthersStored(t, b, owner, control, severity);
  }

  lemma StatusEntryStored(t: Threat, b: TriageBody)
    ensures StatusEntryOf(Triaged(t.status, b.status, TriageReason(b)), t, b)
  {}

  lemma FirstAndRest(first: Entry, owner: seq<Entry>, control: seq<Entry>, severity: seq<Entry>)
    ensures var all := [first] + owner + control + severity;
            all[0] == first && all[1..] == owner + control + severity
  {}

  lemma OthersStored(t: Threat, b: TriageBody, owner: seq<Entry>, control: seq<Entry>, severity: seq<Entry>)
    requires owner == if b.owner.Some? && b.owner != t.owner
                      then [OwnerAssigned(t.status, b.status, b.owner.value)] else []
    requires control == if b.control.Some? && b.control.value != NormalControl(t.control)
                        then [ControlUpdated(t.status, b.status, b.control.value)] else []
    requires severity == if b.severity.Some? && b.severity.value != t.severity
                         then [SeverityUpdated(t.severity, b.severity.value)] else []
    ensures OtherEntriesOf(owner + control + severity, t, b)
  {
    assert NormalControl(t.control) == KnownControl(t.control);
    var entries := owner + control + severity;
    assert forall e :: e in entries <==> e in owner || e in control || e in severity;
  }

  // ---- Bulk triage ----

  /** Only a dismissal leaves a reason; a threat that is closed already keeps its closing time. */
  ghost predicate BulkStored(t: Threat, b: BulkBody, now: Time, t': Threat) {
    && t'.status == b.status && t'.dismissReason == (if b.status == Dismissed then b.dismissReason else None)
    && t'.closedAt == (if !Closes(b.status) then None else if t.closedAt.Some? then t.closedAt else Some(now))
    && t' == t.(status := t'.status, dismissReason := t'.dismissReason, closedAt := t'.closedAt)
  }

  lemma BulkStores(g: Register, b: BulkBody, now: Time)
    requires BulkTriage(g, b, now).Ok?
    ensures var g' := BulkTriage(g, b, now).value;
            && g'.rows.Keys == g.rows.Keys && g'.issued == g.issued
            && forall id | id in g.rows ::
                 if id in b.ids then
                   BulkStored(g.rows[id], b, now, g'.rows[id])
                   && Log(g', id) == Log(g, id) + [Triaged(g.rows[id].status, b.status,
                                                     if Given(b.dismissReason) then b.dismissReason.value
                                                     else ChangedTo(b.status))]
                 else g'.rows[id] == g.rows[id] && Log(g', id) == Log(g, id)
  {
    var g' := BulkTriage(g, b, now).value;
    BulkReasonIs(b);
    forall id | id in g.rows && id in b.ids ensures BulkStored(g.rows[id], b, now, BulkRow(g.rows[id], b, now)) {
      BulkRowStores(g.rows[id], b, now);
    }
  }

  lemma BulkReasonIs(b: BulkBody)
    ensures BulkReason(b) == if Given(b.dismissReason) then b.dismissReason.value else ChangedTo(b.status)
  {}

  lemma BulkRowStores(t: Threat, b: BulkBody, now: Time)
    ensures BulkStored(t, b, now, BulkRow(t, b, now))
  {}

  // ---- Qualification ----

  /** The automatic score counts 40 per cent, the analyst's 60. */
  ghost predicate Blended(t: Threat, b: QualifyBody, score: int) {
    var auto := if t.autoScore.Some? then t.autoScore.value else if t.score.Some? then t.score.value else 0;
    0 <= auto <= 100 && 0 <= b.score <= 100 ==> -5 < 10 * score - (4 * auto + 6 * b.score) < 5
  }

  /** Confirming stamps, dismissing stamps, closes and explains, deferring does neither. */
  ghost predicate QualifyStored(t: Threat, b: QualifyBody, now: Time, t': Threat) {
    && t'.analystScore == Some(b.score) && t'.analystRationale == b.rationale
    && t'.score.Some? && Blended(t, b, t'.score.value)
    && t'.note == (if b.note == None then t.note else if b.note == Some("") then None else b.note)
    && t'.qualifiedAt == (if b.action == Defer then t.qualifiedAt else Some(now))
    && (b.action == Dismiss ==>
          t'.status == Dismissed && t'.closedAt == Some(now) && t'.falsePositive == b.falsePositive
          && t'.dismissReason == b.rationale)
    && (b.action != Dismiss ==>
          t'.status == t.status && t'.closedAt == t.closedAt && t'.falsePositive == t.falsePositive
          && t'.dismissReason == t.dismissReason)
    && t' == t.(analystScore := t'.analystScore, analystRationale := t'.analystRationale, score := t'.score,
                note := t'.note, qualifiedAt := t'.qualifiedAt, status := t'.status, closedAt := t'.closedAt,
                falsePositive := t'.falsePositive, dismissReason := t'.dismissReason)
  }

  /** The entry's reason is the rationale, else the false-positive reason, else the action. */
  ghost predicate QualifyEntryOf(e: Entry, t: Threat, b: QualifyBody) {
    && e.Qualified? && e.from == t.status && e.to == (if b.action == Dismiss then Dismissed else t.status)
    && (b.rationale.Some? ==> e.reason == b.rationale.value)
    && (b.rationale == None && b.action == Dismiss && Given(b.falsePositive) ==>
          e.reason == "False-positive reason: " + b.falsePositive.value)
    && (b.rationale == None && b.action == Confirm ==> e.reason == "Qualification action: confirm")
    && (b.rationale == None && b.action == Defer ==> e.reason == "Qualification action: defer")
  }

  lemma QualifyStores(g: Register, id: Uuid, b: QualifyBody, now: Time)
    ensures Qualify(g, id, b, now) == Err(UnknownThreat) <==> id !in g.rows
    ensures id in g.rows ==>
              Qualify(g, id, b, now).Ok?
              && var g', n := Qualify(g, id, b, now).value, |Log(g, id)|;
                 && OnlyRow(g, g', id) && QualifyStored(g.rows[id], b, now, g'.rows[id])
                 && |Log(g', id)| == n + 1 && Log(g', id)[..n] == Log(g, id)
                 && QualifyEntryOf(Log(g', id)[n], g.rows[id], b)
  {
    if id in g.rows {
      QualifyRowStores(g.rows[id], b, now);
    }
  }

  lemma QualifyRowStores(t: Threat, b: QualifyBody, now: Time)
    ensures QualifyStored(t, b, now, QualifiedRow(t, b, now))
  {
    QualifyBlends(t, b, now);
    QualifyActs(t, b, now);
  }

  lemma QualifyBlends(t: Threat, b: QualifyBody, now: Time)
    ensures var t' := QualifiedRow(t, b, now);
            t'.score.Some? && Blended(t, b, t'.score.value)
  {}

  lemma QualifyActs(t: Threat, b: QualifyBody, now: Time)
    ensures var t' := QualifiedRow(t, b, now);
            && (b.action == Dismiss ==>
                  t'.status == Dismissed && t'.closedAt == Some(now) && t'.falsePositive == b.falsePositive
                  && t'.dismissReason == b.rationale)
            && (b.action != Dismiss ==>
                  t'.status == t.status && t'.closedAt == t.closedAt && t'.falsePositive == t.falsePositive
                  && t'.dismissReason == t.dismissReason)
  {}

  // ---- Manual threats ----

  /** The first catalog entry with the rule. */
  ghost predicate FirstOfRule(catalog: seq<CatalogEntry>, rule: string, e: CatalogEntry) {
    exists i | 0 <= i < |catalog| ::
      catalog[i] == e && e.ruleId == rule && forall k | 0 <= k < i :: catalog[k].ruleId != rule
  }

  lemma {:induction false} LookupFirst(catalog: seq<CatalogEntry>, rule: string)
    ensures var e := Lookup(catalog, Some(rule));
            if e.Some? then FirstOfRule(catalog, rule, e.value) else forall c <- catalog :: c.ruleId != rule
  {
    if catalog != [] {
      var rest := catalog[1..];
      LookupFirst(rest, rule);
      assert catalog == [catalog[0]] + rest;
      if catalog[0].ruleId != rule && Lookup(rest, Some(rule)).Some? {
        var e := Lookup(rest, Some(rule)).value;
        var i :| 0 <= i < |rest| && rest[i] == e && e.ruleId == rule && forall k | 0 <= k < i :: rest[k].ruleId != rule;
        assert catalog[i + 1] == e && forall k | 0 < k < i + 1 :: catalog[k] == rest[k - 1];
      }
    }
  }

  /** The trimmed rule; nothing if it is left out or blank. */
  ghost function RuleSent(b: ManualBody): Option<string> {
    if b.ruleId == None || Strip(b.ruleId.value) == "" then None else Some(Strip(b.ruleId.value))
  }

  ghost function Sent(s: Option<string>, otherwise: string): string {
    if Given(s) then s.value else otherwise
  }

  /** Filled in from the catalog entry: category and kind are the entry's, description and severity only if left out. */
  ghost predicate FromEntry(t: Threat, b: ManualBody, e: CatalogEntry) {
    && t.stride == e.stride && t.subtype == e.subtype
    && t.description == Sent(b.description, e.template) && t.severity == Sent(b.severity, e.severity)
  }

  /** A threat of the analyst's own needs a description. */
  ghost predicate Custom(t: Threat, b: ManualBody) {
    && Given(b.description) && t.description == b.description.value
    && t.severity == Sent(b.severity, "Medium") && t.stride == Sent(b.stride, "Tampering")
    && t.subtype == (if Strip(Sent(b.subtype, "")) == "" then "Custom threat" else Strip(b.subtype.value))
  }

  /** Open, manual, unscored and undecided. */
  ghost predicate ManualDefaults(t: Threat, now: Time) {
    && t.status == Open && t.source == Manual && !t.aiEnhanced && !t.providerManaged && t.edgeIds == []
    && t.rationale == None && t.plan == None && t.owner == None && t.dueDate == None && t.notes == None
    && t.control == "none" && t.dismissReason == None && t.residual == None && t.closedAt == None
    && t.score == None && t.autoScore == None && t.analystScore == None && t.analystRationale == None
    && t.note == None && t.clusterId == None && t.falsePositive == None && t.qualifiedAt == None && t.createdAt == now
  }

  lemma CustomSubtype(b: ManualBody)
    ensures Or(Some(Strip(Or(b.subtype, "Custom threat"))), "Custom threat")
         == if Strip(Sent(b.subtype, "")) == "" then "Custom threat" else Strip(b.subtype.value)
  {
    assert Strip("") == "";
    assert Trim("Custom threat");
    StripTrim("Custom threat");
  }

  lemma ManualStores(catalog: seq<CatalogEntry>, b: ManualBody, displayId: string, now: Time)
    requires ManualRow(catalog, b, displayId, now).Ok?
    ensures var t := ManualRow(catalog, b, displayId, now).value;
            && t.displayId == displayId && t.ruleId == RuleSent(b) && b.nodeIds == Some(t.nodeIds)
            && t.severity in {"Critical", "High", "Medium", "Low"} && ManualDefaults(t, now)
            && if t.ruleId.Some? && exists c <- catalog :: c.ruleId == t.ruleId.value
               then exists e :: FirstOfRule(catalog, t.ruleId.value, e) && FromEntry(t, b, e)
               else Custom(t, b)
  {
    var rule := StoredRuleId(b);
    assert Strip("") == "";
    assert rule == RuleSent(b);
    CustomSubtype(b);
    if rule.Some? {
      LookupFirst(catalog, rule.value);
      var e := Lookup(catalog, rule);
      if e.Some? {
        assert FirstOfRule(catalog, rule.value, e.value);
        assert e.value in catalog;
      }
    }
  }

  /** Refused for the first of three reasons that applies. */
  lemma ManualRefusal(catalog: seq<CatalogEntry>, b: ManualBody, displayId: string, now: Time)
    ensures var r := ManualRow(catalog, b, displayId, now);
            var known := RuleSent(b).Some? && exists c <- catalog :: c.ruleId == RuleSent(b).value;
            && (r == Err(DescriptionRequired) <==> !known && !Given(b.description))
            && (r == Err(InvalidNodeId) ==> b.nodeIds == None)
            && (r.Ok? ==> b.nodeIds.Some?)
            && (!known && Given(b.description) ==>
                  (r == Err(InvalidSeverity) <==>
                     Sent(b.severity, "Medium") !in {"Critical", "High", "Medium", "Low"}))
  {
    var rule := StoredRuleId(b);
    assert Strip("") == "";
    assert rule == RuleSent(b);
    if rule.Some? {
      LookupFirst(catalog, rule.value);
      if Lookup(catalog, rule).Some? {
        assert Lookup(catalog, rule).value in catalog;
      }
    }
  }

  // ---- Clusters ----

  /** Cluster `k` is the last one that lists the threat. */
  ghost predicate LastListing(clusters: seq<Cluster>, id: Uuid, k: nat) {
    k < |clusters| && id in clusters[k].threats && forall j | k < j < |clusters| :: id !in clusters[j].threats
  }

  lemma {:induction false} ClusterMapIsLast(clusters: seq<Cluster>, id: Uuid)
    ensures id in ClusterMap(clusters) <==> exists c <- clusters :: id in c.threats
    ensures forall k: nat | LastListing(clusters, id, k) ::
              id in ClusterMap(clusters) && ClusterMap(clusters)[id] == clusters[k].id
  {
    if clusters != [] {
      var init, last := clusters[..|clusters| - 1], clusters[|clusters| - 1];
      assert clusters == init + [last];
      ClusterMapIsLast(init, id);
      forall k: nat | LastListing(clusters, id, k)
        ensures id in ClusterMap(clusters) && ClusterMap(clusters)[id] == clusters[k].id
      {
        if k < |init| {
          assert clusters[|init|] == last && LastListing(init, id, k);
        }
      }
    }
  }

  /** Recomputing clusters: a row belongs to the last cluster that lists it, or to none, and keeps everything else. */
  lemma ReclusterStores(rows: map<Uuid, Threat>, clusters: seq<Cluster>, id: Uuid)
    requires id in rows
    ensures var rows' := Reclustered(rows, ClusterMap(clusters));
            && rows'.Keys == rows.Keys && rows'[id] == rows[id].(clusterId := rows'[id].clusterId)
            && (rows'[id].clusterId == None <==> forall c <- clusters :: id !in c.threats)
            && forall k: nat | LastListing(clusters, id, k) :: rows'[id].clusterId == Some(clusters[k].id)
  {
    ClusterMapIsLast(clusters, id);
  }
}
