/** What holds in every state the threat endpoints can reach, and what repeated analysis preserves. */
module ThreatRuns {
  import opened Wrappers
  import opened PyText
  import opened DisplayIds
  import opened Threats
  import opened Reconcile
  import opened ThreatCatalog
  import opened ThreatSteps

  /** `states[i + 1]` follows from `states[i]` by request `requests[i]`. */
  ghost predicate Run(d: Digits, catalog: seq<CatalogEntry>, states: seq<Register>, requests: seq<Request>) {
    && |states| == |requests| + 1
    && forall i | 0 <= i < |requests| :: Step(d, catalog, states[i], requests[i], states[i + 1])
  }

  lemma RunStep(d: Digits, catalog: seq<CatalogEntry>, states: seq<Register>, requests: seq<Request>, i: nat)
    requires Run(d, catalog, states, requests) && i < |requests|
    ensures Step(d, catalog, states[i], requests[i], states[i + 1])
  {}

  // ---- The audit trail replays to the current status ----

  /** Status entries chained from Open: each starts where the previous one ended. */
  function Replay(log: seq<Entry>): Option<Status> {
    if log == [] then Some(Open)
    else
      var so, e := Replay(log[..|log| - 1]), log[|log| - 1];
      match e
      case Triaged(from, to, _) => if so == Some(from) then Some(to) else None
      case Qualified(from, to, _) => if so == Some(from) then Some(to) else None
      case _ => so
  }

  predicate StatusEntry(e: Entry) {
    e.Triaged? || e.Qualified?
  }

  lemma ReplaySnoc(log: seq<Entry>, e: Entry)
    ensures Replay(log + [e]) == if !StatusEntry(e) then Replay(log)
            else if Replay(log) == Some(e.from) then Some(e.to) else None
  {
    assert (log + [e])[..|log|] == log;
  }

  lemma {:induction false} ReplayOthers(log: seq<Entry>, others: seq<Entry>)
    requires forall i | 0 <= i < |others| :: !StatusEntry(others[i])
    ensures Replay(log + others) == Replay(log)
  {
    if others == [] {
      assert log + others == log;
    } else {
      var init, last := others[..|others| - 1], others[|others| - 1];
      ReplayOthers(log, init);
      ReplaySnoc(log + init, last);
      assert log + others == (log + init) + [last];
    }
  }

  lemma ReplayTriage(log: seq<Entry>, t: Threat, b: TriageBody)
    ensures Replay(log + TriageEntries(t, b)) == if Replay(log) == Some(t.status) then Some(b.status) else None
  {
    var first := Triaged(t.status, b.status, TriageReason(b));
    var others := TriageEntries(t, b)[1..];
    ReplaySnoc(log, first);
    ReplayOthers(log + [first], others);
    assert log + TriageEntries(t, b) == (log + [first]) + others;
  }

  // ---- The invariant ----

  /** Closed exactly in a terminal status; a dismissal is explained. */
  ghost predicate Explained(t: Threat) {
    && (t.closedAt.Some? <==> t.status == Mitigated || t.status == Accepted || t.status == Dismissed)
    && (t.status == Dismissed ==> !Blank(t.dismissReason) || t.falsePositive.Some?)
  }

  ghost predicate SoundRow(t: Threat, log: seq<Entry>) {
    Explained(t) && Replay(log) == Some(t.status)
  }

  ghost predicate Sound(g: Register) {
    Keyed(g) && forall id | id in g.rows :: SoundRow(g.rows[id], Log(g, id))
  }

  lemma NewRowSound(t: Threat)
    requires t.status == Open && t.closedAt == None
    ensures SoundRow(t, [])
  {}

  lemma RefreshedSound(t: Threat, gt: Generated, log: seq<Entry>)
    requires SoundRow(t, log)
    ensures SoundRow(Refreshed(t, gt), log)
  {
    var t' := Refreshed(t, gt);
    assert t'.status == t.status && t'.closedAt == t.closedAt && t'.dismissReason == t.dismissReason
           && t'.falsePositive == t.falsePositive;
  }

  lemma TriagedSound(t: Threat, b: TriageBody, now: Time, log: seq<Entry>)
    requires SoundRow(t, log) && !(b.status == Dismissed && Blank(b.dismissReason))
    ensures SoundRow(TriagedRow(t, b, now), log + TriageEntries(t, b))
  {
    ReplayTriage(log, t, b);
    var t' := TriagedRow(t, b, now);
    assert t'.status == b.status && t'.closedAt == if Terminal(b.status) then Some(now) else None;
    assert b.status == Dismissed ==> t'.dismissReason == b.dismissReason;
  }

  lemma BulkSound(t: Threat, b: BulkBody, now: Time, log: seq<Entry>)
    requires SoundRow(t, log) && !(b.status == Dismissed && Blank(b.dismissReason))
    ensures SoundRow(BulkRow(t, b, now), log + [Triaged(t.status, b.status, BulkReason(b))])
  {
    ReplaySnoc(log, Triaged(t.status, b.status, BulkReason(b)));
    var t' := BulkRow(t, b, now);
    assert t'.status == b.status && (t'.closedAt.Some? <==> Terminal(b.status));
  }

  lemma QualifiedSound(t: Threat, b: QualifyBody, now: Time, log: seq<Entry>)
    requires SoundRow(t, log) && ValidQualify(b)
    ensures SoundRow(QualifiedRow(t, b, now),
                     log + [Qualified(t.status, QualifiedRow(t, b, now).status, QualifyReason(b))])
  {
    var t' := QualifiedRow(t, b, now);
    ReplaySnoc(log, Qualified(t.status, t'.status, QualifyReason(b)));
    if b.action != Dismiss {
      assert t'.status == t.status && t'.closedAt == t.closedAt && t'.dismissReason == t.dismissReason
             && t'.falsePositive == t.falsePositive;
    }
  }

  lemma AnalyzeSound(g: Register, gts: seq<Generated>, assign: seq<Uuid>, now: Time, g': Register)
    requires Sound(g) && AnalyzeStep(g, gts, assign, now, g')
    ensures Sound(g')
  {
    forall id | id in g'.rows ensures id in g'.issued && SoundRow(g'.rows[id], Log(g', id)) {
      if id in assign {
        var j :| 0 <= j < |assign| && assign[j] == id;
        assert Holds(g.rows, g'.rows, assign[j], gts[j], now);
        if id in g.rows {
          RefreshedSound(g.rows[id], gts[j], Log(g, id));
        } else {
          NewRowSound(FreshRow(gts[j], now));
        }
      }
    }
  }

  lemma GenerateSound(g: Register, gts: seq<Generated>, ids: seq<Uuid>, now: Time, g': Register)
    requires Sound(g) && GenerateStep(g, gts, ids, now, g')
    ensures Sound(g')
  {
    forall id | id in g'.rows ensures id in g'.issued && SoundRow(g'.rows[id], Log(g', id)) {
      if id in ids {
        var j :| 0 <= j < |ids| && ids[j] == id;
        NewRowSound(GeneratedRow(gts[j], now));
      }
    }
  }

  lemma ManualSound(d: Digits, catalog: seq<CatalogEntry>, g: Register, body: ManualBody, id: Uuid, n: int,
                    now: Time, g': Register)
    requires Sound(g) && ManualStep(d, catalog, g, body, id, n, now, g')
    ensures Sound(g')
  {
    var row := ManualRow(catalog, body, DisplayId(n), now);
    if row.Ok? {
      NewRowSound(row.value);
      forall x | x in g'.rows ensures SoundRow(g'.rows[x], Log(g', x)) {
        assert x != id ==> Log(g', x) == Log(g, x);
      }
    }
  }

  lemma TriageSound(g: Register, id: Uuid, b: TriageBody, now: Time)
    requires Sound(g)
    ensures Sound(Answer(g, Triage(g, id, b, now)))
  {
    if Triage(g, id, b, now).Ok? {
      TriagedSound(g.rows[id], b, now, Log(g, id));
    }
  }

  lemma BulkTriageSound(g: Register, b: BulkBody, now: Time)
    requires Sound(g)
    ensures Sound(Answer(g, BulkTriage(g, b, now)))
  {
    if BulkTriage(g, b, now).Ok? {
      forall id | id in g.rows && id in b.ids
        ensures SoundRow(BulkRow(g.rows[id], b, now),
                         Log(g, id) + [Triaged(g.rows[id].status, b.status, BulkReason(b))])
      {
        BulkSound(g.rows[id], b, now, Log(g, id));
      }
    }
  }

  lemma QualifySound(g: Register, id: Uuid, b: QualifyBody, now: Time)
    requires Sound(g) && ValidQualify(b)
    ensures Sound(Answer(g, Qualify(g, id, b, now)))
  {
    if id in g.rows {
      QualifiedSound(g.rows[id], b, now, Log(g, id));
    }
  }

  lemma ReclusterSound(g: Register, clusters: map<Uuid, Uuid>)
    requires Sound(g)
    ensures Sound(g.(rows := Reclustered(g.rows, clusters)))
  {
    var g' := g.(rows := Reclustered(g.rows, clusters));
    forall id | id in g'.rows ensures SoundRow(g'.rows[id], Log(g', id)) {
      assert SoundRow(g.rows[id], Log(g, id)) && Log(g', id) == Log(g, id);
    }
  }

  lemma StepSound(d: Digits, catalog: seq<CatalogEntry>, g: Register, r: Request, g': Register)
    requires Sound(g) && Step(d, catalog, g, r, g')
    ensures Sound(g')
  {
    match r
    case Generate(gts, ids, now) => GenerateSound(g, gts, ids, now, g');
    case Analyze(gts, assign, now) => AnalyzeSound(g, gts, assign, now, g');
    case AddManual(body, id, n, now) => ManualSound(d, catalog, g, body, id, n, now, g');
    case TriageOne(id, body, now) => TriageSound(g, id, body, now);
    case TriageMany(body, now) => BulkTriageSound(g, body, now);
    case QualifyOne(id, body, now) => QualifySound(g, id, body, now);
    case Recluster(clusters) => ReclusterSound(g, clusters);
  }

  /** In every reachable state a row is closed exactly when its status is terminal, a dismissed row says why,
      and the row's audit entries chain from Open to its current status. */
  lemma {:induction false} ReachableSound(d: Digits, catalog: seq<CatalogEntry>, states: seq<Register>,
                                          requests: seq<Request>, i: nat)
    requires Run(d, catalog, states, requests) && states[0] == EMPTY_REGISTER && i < |states|
    ensures Sound(states[i])
  {
    if i > 0 {
      ReachableSound(d, catalog, states, requests, i - 1);
      StepSound(d, catalog, states[i - 1], requests[i - 1], states[i]);
    }
  }

  // ---- Replaying, spelled out ----

  datatype Move = Move(from: Status, to: Status)

  /** The status changes a log records, in order. */
  function Moves(log: seq<Entry>): seq<Move> {
    if log == [] then []
    else
      var before, e := Moves(log[..|log| - 1]), log[|log| - 1];
      if StatusEntry(e) then before + [Move(e.from, e.to)] else before
  }

  /** Move `i` leaves where the one before arrived; the first leaves Open. */
  predicate Leaves(moves: seq<Move>, i: int)
    requires 0 <= i < |moves|
  {
    moves[i].from == if i == 0 then Open else moves[i - 1].to
  }

  ghost predicate Chain(moves: seq<Move>, s: Status) {
    && (forall i | 0 <= i < |moves| :: Leaves(moves, i))
    && s == if moves == [] then Open else moves[|moves| - 1].to
  }

  lemma ChainSnoc(moves: seq<Move>, m: Move, s: Status)
    ensures Chain(moves + [m], s) <==> Chain(moves, m.from) && s == m.to
  {
    var moves' := moves + [m];
    forall i | 0 <= i < |moves| ensures Leaves(moves', i) == Leaves(moves, i) {
      assert moves'[i] == moves[i] && (i > 0 ==> moves'[i - 1] == moves[i - 1]);
    }
    assert Leaves(moves', |moves|) <==> m.from == if moves == [] then Open else moves[|moves| - 1].to;
  }

  lemma {:induction false} ReplayIsChain(log: seq<Entry>, s: Status)
    ensures Replay(log) == Some(s) <==> Chain(Moves(log), s)
  {
    if log != [] {
      var init, last := log[..|log| - 1], log[|log| - 1];
      if StatusEntry(last) {
        ReplayIsChain(init, last.from);
        ChainSnoc(Moves(init), Move(last.from, last.to), s);
      } else {
        ReplayIsChain(init, s);
        assert Moves(log) == Moves(init);
      }
    }
  }

  // ---- Analysing again and again ----

  /** Per identity, as many generated rows as generated threats. */
  ghost predicate Mirrors(rows: map<Uuid, Threat>, gts: seq<Generated>) {
    forall k :: |Group(rows, k)| == Count(gts, k)
  }

  /** The same identities equally often: the order, and the order of node ids inside a threat, may differ. */
  ghost predicate SameFindings(gts: seq<Generated>, gts': seq<Generated>) {
    forall k :: Count(gts', k) == Count(gts, k)
  }

  /** That is, the same multiset of identities. */
  lemma SameFindingsIff(gts: seq<Generated>, gts': seq<Generated>)
    ensures SameFindings(gts, gts') <==> multiset(Identities(gts')) == multiset(Identities(gts))
  {
    forall k ensures Count(gts, k) == multiset(Identities(gts))[k] && Count(gts', k) == multiset(Identities(gts'))[k] {
      CountIsMultiplicity(gts, k);
      CountIsMultiplicity(gts', k);
    }
    if SameFindings(gts, gts') {
      forall k ensures multiset(Identities(gts'))[k] == multiset(Identities(gts))[k] {
        assert Count(gts', k) == Count(gts, k);
      }
    }
  }

  lemma PermutedNodesSameFindings(gts: seq<Generated>, gts': seq<Generated>)
    requires |gts'| == |gts|
    requires forall j | 0 <= j < |gts| ::
               gts'[j].ruleId == gts[j].ruleId && multiset(gts'[j].nodeIds) == multiset(gts[j].nodeIds)
    ensures SameFindings(gts, gts')
  {
    forall j | 0 <= j < |gts| ensures IdentityOf(gts'[j]) == IdentityOf(gts[j]) {
      SameSortIffSameIds(gts'[j].nodeIds, gts[j].nodeIds);
    }
    forall k ensures Count(gts', k) == Count(gts, k) {
      SameCounts(gts, gts', k);
    }
  }

  function GeneratedKeys(rows: map<Uuid, Threat>): set<Uuid> {
    set id | id in rows && IsGenerated(rows[id])
  }

  /** Anything but a `generate`, or an analysis with other findings. */
  ghost predicate Quiet(r: Request, gts: seq<Generated>) {
    !r.Generate? && (r.Analyze? ==> SameFindings(gts, r.gts))
  }

  ghost predicate SameKind(t: Threat, t': Threat) {
    RowIdentity(t') == RowIdentity(t) && (IsGenerated(t') <==> IsGenerated(t))
  }

  /** No row of `before` is gone or changes identity, and every other row of `after` is Manual. */
  ghost predicate OnlyManualAdded(before: map<Uuid, Threat>, after: map<Uuid, Threat>) {
    && (forall id | id in before :: id in after && SameKind(before[id], after[id]))
    && (forall id | id in after && id !in before :: !IsGenerated(after[id]))
  }

  lemma SameGroups(before: map<Uuid, Threat>, after: map<Uuid, Threat>, gts: seq<Generated>)
    requires OnlyManualAdded(before, after) && Mirrors(before, gts)
    ensures Mirrors(after, gts) && GeneratedKeys(after) == GeneratedKeys(before)
  {
    forall k ensures |Group(after, k)| == Count(gts, k) {
      assert Group(after, k) == Group(before, k);
    }
  }

  lemma AnalyzeMirrors(g: Register, gts: seq<Generated>, assign: seq<Uuid>, now: Time, g': Register)
    requires AnalyzeStep(g, gts, assign, now, g')
    ensures Mirrors(g'.rows, gts)
  {
    forall k ensures |Group(g'.rows, k)| == Count(gts, k) {
      IdentitiesMirrorGenerated(g.rows, g'.rows, gts, assign, now, k);
    }
  }

  /** An analysis that finds the same again keeps every row and every decision on it. */
  ghost predicate NothingDecided(g: Register, g': Register) {
    && g'.rows.Keys == g.rows.Keys
    && forall id | id in g.rows ::
         SameDecisions(g.rows[id], g'.rows[id]) && SameKind(g.rows[id], g'.rows[id]) && Log(g', id) == Log(g, id)
  }

  lemma AnalyzeQuiet(g: Register, gts: seq<Generated>, gts': seq<Generated>, assign: seq<Uuid>, now: Time,
                     g': Register)
    requires AnalyzeStep(g, gts', assign, now, g') && Mirrors(g.rows, gts) && SameFindings(gts, gts')
    ensures NothingDecided(g, g')
  {
    MirroredSyncKeepsRows(g.rows, g'.rows, gts', assign, now);
    forall id | id in g.rows ensures SameKind(g.rows[id], g'.rows[id]) {
      KeptRow(g.rows, g'.rows, gts', assign, now, id);
    }
  }

  lemma TriageSameKind(t: Threat, b: TriageBody, now: Time)
    ensures SameKind(t, TriagedRow(t, b, now))
  {}

  lemma BulkSameKind(t: Threat, b: BulkBody, now: Time)
    ensures SameKind(t, BulkRow(t, b, now))
  {}

  lemma QualifySameKind(t: Threat, b: QualifyBody, now: Time)
    ensures SameKind(t, QualifiedRow(t, b, now))
  {}

  lemma ManualRowIsManual(catalog: seq<CatalogEntry>, body: ManualBody, displayId: string, now: Time)
    ensures var r := ManualRow(catalog, body, displayId, now); r.Ok? ==> !IsGenerated(r.value)
  {}

  lemma TriageQuiet(g: Register, id: Uuid, b: TriageBody, now: Time)
    ensures OnlyManualAdded(g.rows, Answer(g, Triage(g, id, b, now)).rows)
  {
    if id in g.rows { TriageSameKind(g.rows[id], b, now); }
  }

  lemma BulkQuiet(g: Register, b: BulkBody, now: Time)
    ensures OnlyManualAdded(g.rows, Answer(g, BulkTriage(g, b, now)).rows)
  {
    forall id | id in g.rows ensures SameKind(g.rows[id], BulkRow(g.rows[id], b, now)) {
      BulkSameKind(g.rows[id], b, now);
    }
  }

  lemma QualifyQuiet(g: Register, id: Uuid, b: QualifyBody, now: Time)
    ensures OnlyManualAdded(g.rows, Answer(g, Qualify(g, id, b, now)).rows)
  {
    if id in g.rows { QualifySameKind(g.rows[id], b, now); }
  }

  lemma ManualQuiet(d: Digits, catalog: seq<CatalogEntry>, g: Register, body: ManualBody, id: Uuid, n: int,
                    now: Time, g': Register)
    requires Keyed(g) && ManualStep(d, catalog, g, body, id, n, now, g')
    ensures OnlyManualAdded(g.rows, g'.rows)
  {
    ManualRowIsManual(catalog, body, DisplayId(n), now);
  }

  lemma QuietStep(d: Digits, catalog: seq<CatalogEntry>, g: Register, r: Request, g': Register, gts: seq<Generated>)
    requires Keyed(g) && Step(d, catalog, g, r, g') && Quiet(r, gts) && Mirrors(g.rows, gts)
    ensures OnlyManualAdded(g.rows, g'.rows)
  {
    match r
    case Generate(_, _, _) =>
    case Analyze(gts', assign, now) => AnalyzeQuiet(g, gts, gts', assign, now, g');
    case AddManual(body, id, n, now) => ManualQuiet(d, catalog, g, body, id, n, now, g');
    case TriageOne(id, b, now) => TriageQuiet(g, id, b, now);
    case TriageMany(b, now) => BulkQuiet(g, b, now);
    case QualifyOne(id, b, now) => QualifyQuiet(g, id, b, now);
    case Recluster(clusters) =>
  }

  lemma StepKeyed(d: Digits, catalog: seq<CatalogEntry>, g: Register, r: Request, g': Register)
    requires Keyed(g) && Step(d, catalog, g, r, g')
    ensures Keyed(g')
  {}

  lemma {:induction false} QuietRun(d: Digits, catalog: seq<CatalogEntry>, states: seq<Register>,
                                    requests: seq<Request>, gts: seq<Generated>, from: nat, i: nat)
    requires Run(d, catalog, states, requests) && from <= i < |states| && Keyed(states[from])
            && Mirrors(states[from].rows, gts)
    requires forall j | from <= j < |requests| :: Quiet(requests[j], gts)
    ensures Keyed(states[i]) && Mirrors(states[i].rows, gts)
            && GeneratedKeys(states[i].rows) == GeneratedKeys(states[from].rows)
    decreases i
  {
    if i > from {
      QuietRun(d, catalog, states, requests, gts, from, i - 1);
      StepKeyed(d, catalog, states[i - 1], requests[i - 1], states[i]);
      QuietStep(d, catalog, states[i - 1], requests[i - 1], states[i], gts);
      SameGroups(states[i - 1].rows, states[i].rows, gts);
    }
  }

  /** After an analysis, however many triage, bulk, qualify, manual, clustering and analysis requests follow:
      while the findings stay the same no generated row appears or disappears, and no later analysis changes
      a status, a reason, an analyst's score, a time stamp or an audit entry. */
  lemma ReanalysisIsStable(d: Digits, catalog: seq<CatalogEntry>, states: seq<Register>, requests: seq<Request>,
                           i: nat)
    requires Run(d, catalog, states, requests) && Keyed(states[0]) && 1 <= i < |requests| && requests[0].Analyze?
    requires forall j | 1 <= j < |requests| :: Quiet(requests[j], requests[0].gts)
    ensures GeneratedKeys(states[i + 1].rows) == GeneratedKeys(states[1].rows)
    ensures requests[i].Analyze? ==> NothingDecided(states[i], states[i + 1])
  {
    var gts := requests[0].gts;
    StepKeyed(d, catalog, states[0], requests[0], states[1]);
    AnalyzeMirrors(states[0], gts, requests[0].assign, requests[0].now, states[1]);
    QuietRun(d, catalog, states, requests, gts, 1, i);
    QuietRun(d, catalog, states, requests, gts, 1, i + 1);
    if requests[i].Analyze? {
      AnalyzeQuiet(states[i], gts, requests[i].gts, requests[i].assign, requests[i].now, states[i + 1]);
    }
  }

  // ---- `generate` after an analysis ----

  function OtherGroup(rows: map<Uuid, Threat>, k: Identity): set<Uuid> {
    set id | id in Group(rows, k) && rows[id].source != Rules
  }

  lemma RegeneratedRow(before: map<Uuid, Threat>, after: map<Uuid, Threat>, gts: seq<Generated>, ids: seq<Uuid>,
                       now: Time, j: nat)
    requires Regenerated(before, after, gts, ids, now) && j < |gts|
    ensures ids[j] !in before && ids[j] in after && IsGenerated(after[ids[j]])
            && RowIdentity(after[ids[j]]) == IdentityOf(gts[j])
  {
    assert after[ids[j]] == GeneratedRow(gts[j], now);
    assert GeneratedRow(gts[j], now).source == Rules && GeneratedRow(gts[j], now).ruleId == Some(gts[j].ruleId)
           && GeneratedRow(gts[j], now).nodeIds == gts[j].nodeIds;
  }

  lemma RegeneratedGroup(before: map<Uuid, Threat>, after: map<Uuid, Threat>, gts: seq<Generated>, ids: seq<Uuid>,
                         now: Time, k: Identity)
    requires Regenerated(before, after, gts, ids, now)
    ensures Group(after, k) == Landed(gts, ids, k) + OtherGroup(before, k)
            && Landed(gts, ids, k) !! OtherGroup(before, k)
  {
    forall j | 0 <= j < |gts|
      ensures ids[j] !in before && ids[j] in after && IsGenerated(after[ids[j]])
      ensures RowIdentity(after[ids[j]]) == IdentityOf(gts[j])
    {
      RegeneratedRow(before, after, gts, ids, now, j);
    }
    forall id | id in Group(after, k) ensures id in Landed(gts, ids, k) + OtherGroup(before, k) {
      if id in ids {
        var j :| 0 <= j < |ids| && ids[j] == id;
      }
    }
  }

  /** `generate` replaces only rule rows: what the AI pass touched stays beside its regenerated copy. */
  lemma GenerateAddsCopies(g: Register, gts: seq<Generated>, ids: seq<Uuid>, now: Time, g': Register, k: Identity)
    requires GenerateStep(g, gts, ids, now, g')
    ensures |Group(g'.rows, k)| == Count(gts, k) + |OtherGroup(g.rows, k)|
  {
    RegeneratedGroup(g.rows, g'.rows, gts, ids, now, k);
    LandedCount(gts, ids, k);
  }

  /** So the register mirrors the engine's output afterwards exactly when there were no AI rows. */
  lemma GenerateMirrorsIff(g: Register, gts: seq<Generated>, ids: seq<Uuid>, now: Time, g': Register)
    requires GenerateStep(g, gts, ids, now, g')
    ensures Mirrors(g'.rows, gts) <==>
            forall id | id in g.rows :: g.rows[id].source == Rules || g.rows[id].source == Manual
  {
    forall k ensures |Group(g'.rows, k)| == Count(gts, k) + |OtherGroup(g.rows, k)| {
      GenerateAddsCopies(g, gts, ids, now, g', k);
    }
    if Mirrors(g'.rows, gts) {
      forall id | id in g.rows ensures g.rows[id].source == Rules || g.rows[id].source == Manual {
        var k := RowIdentity(g.rows[id]);
        assert |Group(g'.rows, k)| == Count(gts, k);
        assert OtherGroup(g.rows, k) == {};
        assert id !in OtherGroup(g.rows, k);
      }
    } else {
      var k :| |Group(g'.rows, k)| != Count(gts, k);
      assert OtherGroup(g.rows, k) != {};
      var id :| id in OtherGroup(g.rows, k);
    }
  }

  /** Two registers that differ in nothing but the ids and creation times of the rule rows: the rows of the first
      with ids `ids` stand in the second under `ids'`. */
  ghost predicate SameButRuleIds(rows: map<Uuid, Threat>, ids: seq<Uuid>, rows': map<Uuid, Threat>, ids': seq<Uuid>) {
    && |ids'| == |ids| && Distinct(ids) && Distinct(ids')
    && (forall j | 0 <= j < |ids| ::
          ids[j] in rows && ids'[j] in rows' && rows'[ids'[j]].(createdAt := rows[ids[j]].createdAt) == rows[ids[j]])
    && (forall id :: id in rows' && id !in ids' <==> id in rows && id !in ids)
    && (forall id | id in rows && id !in ids :: rows'[id] == rows[id])
  }

  lemma GeneratedRowTime(gt: Generated, now: Time, now': Time)
    ensures GeneratedRow(gt, now').(createdAt := GeneratedRow(gt, now).createdAt) == GeneratedRow(gt, now)
  {}

  lemma RegeneratedRules(before: map<Uuid, Threat>, after: map<Uuid, Threat>, gts: seq<Generated>, ids: seq<Uuid>,
                         now: Time)
    requires Regenerated(before, after, gts, ids, now)
    ensures forall id | id in after :: after[id].source == Rules <==> id in ids
  {
    forall id | id in after ensures after[id].source == Rules <==> id in ids {
      if id in ids {
        var j :| 0 <= j < |ids| && ids[j] == id;
        assert after[ids[j]] == GeneratedRow(gts[j], now);
      }
    }
  }

  lemma NewRowsUnlogged(g: Register, gts: seq<Generated>, ids: seq<Uuid>, now: Time, g': Register)
    requires Keyed(g) && GenerateStep(g, gts, ids, now, g')
    ensures Keyed(g') && forall j | 0 <= j < |ids| :: Log(g', ids[j]) == []
  {
    forall j | 0 <= j < |ids| ensures Log(g', ids[j]) == [] {
      assert ids[j] !in g.rows && ids[j] in g'.rows;
    }
  }

  /** `generate` is idempotent: running it again on the same output leaves the same rows and audit trails, up to the
      ids and creation times of the rule rows, which have no trail yet. */
  lemma GenerateIsIdempotent(g: Register, gts: seq<Generated>, ids: seq<Uuid>, now: Time, g': Register,
                             ids': seq<Uuid>, now': Time, g'': Register)
    requires Keyed(g) && GenerateStep(g, gts, ids, now, g') && GenerateStep(g', gts, ids', now', g'')
    ensures SameButRuleIds(g'.rows, ids, g''.rows, ids')
    ensures forall j | 0 <= j < |ids| :: Log(g', ids[j]) == [] && Log(g'', ids'[j]) == []
    ensures forall id | id in g'.rows && id !in ids :: Log(g'', id) == Log(g', id)
  {
    NewRowsUnlogged(g, gts, ids, now, g');
    NewRowsUnlogged(g', gts, ids', now', g'');
    RegeneratedRules(g.rows, g'.rows, gts, ids, now);
    RegeneratedRules(g'.rows, g''.rows, gts, ids', now');
    forall j | 0 <= j < |ids|
      ensures ids[j] in g'.rows && ids'[j] in g''.rows
      ensures g''.rows[ids'[j]].(createdAt := g'.rows[ids[j]].createdAt) == g'.rows[ids[j]]
    {
      assert g'.rows[ids[j]] == GeneratedRow(gts[j], now) && g''.rows[ids'[j]] == GeneratedRow(gts[j], now');
      GeneratedRowTime(gts[j], now, now');
    }
    forall id ensures id in g''.rows && id !in ids' <==> id in g'.rows && id !in ids {}
  }

  lemma SameOtherGroup(before: map<Uuid, Threat>, after: map<Uuid, Threat>, gts: seq<Generated>, ids: seq<Uuid>,
                       now: Time, k: Identity)
    requires Regenerated(before, after, gts, ids, now)
    ensures OtherGroup(after, k) == OtherGroup(before, k)
  {
    RegeneratedRules(before, after, gts, ids, now);
    assert forall id | id in after && id !in ids :: after[id] == before[id];
  }

  /** In particular every identity occurs as often as before. */
  lemma GenerateTwiceSameCounts(g: Register, gts: seq<Generated>, ids: seq<Uuid>, now: Time, g': Register,
                                ids': seq<Uuid>, now': Time, g'': Register, k: Identity)
    requires GenerateStep(g, gts, ids, now, g') && GenerateStep(g', gts, ids', now', g'')
    ensures |Group(g''.rows, k)| == |Group(g'.rows, k)|
  {
    GenerateAddsCopies(g, gts, ids, now, g', k);
    GenerateAddsCopies(g', gts, ids', now', g'', k);
    SameOtherGroup(g.rows, g'.rows, gts, ids, now, k);
  }

  // ---- A qualified row is never queued again ----

  /** Never a candidate again: qualified, or deleted. */
  ghost predicate Spent(g: Register, id: Uuid) {
    id in g.issued && (id in g.rows ==> g.rows[id].qualifiedAt.Some?)
  }

  lemma AnalyzeKeepsSpent(g: Register, gts: seq<Generated>, assign: seq<Uuid>, now: Time, g': Register, id: Uuid)
    requires AnalyzeStep(g, gts, assign, now, g') && Spent(g, id)
    ensures Spent(g', id)
  {
    if id in g'.rows && id in g.rows {
      KeptRow(g.rows, g'.rows, gts, assign, now, id);
    }
  }

  lemma StepKeepsSpent(d: Digits, catalog: seq<CatalogEntry>, g: Register, r: Request, g': Register, id: Uuid)
    requires Step(d, catalog, g, r, g') && Spent(g, id)
    ensures Spent(g', id)
  {
    match r
    case Analyze(gts, assign, now) => AnalyzeKeepsSpent(g, gts, assign, now, g', id);
    case _ =>
  }

  /** Reopened, re-analysed or deleted: a row once confirmed or dismissed in qualification stays out. */
  lemma {:induction false} StampedForGood(d: Digits, catalog: seq<CatalogEntry>, states: seq<Register>,
                                          requests: seq<Request>, id: Uuid, i: nat, j: nat)
    requires Run(d, catalog, states, requests) && i <= j < |states| && Spent(states[i], id)
    ensures Spent(states[j], id)
    decreases j
  {
    if i < j {
      StampedForGood(d, catalog, states, requests, id, i, j - 1);
      RunStep(d, catalog, states, requests, j - 1);
      StepKeepsSpent(d, catalog, states[j - 1], requests[j - 1], states[j], id);
    }
  }

  // ---- Two steps from the empty register ----

  lemma TwoSteps(d: Digits, catalog: seq<CatalogEntry>, g0: Register, r0: Request, g1: Register, r1: Request,
                 g2: Register)
    requires Step(d, catalog, g0, r0, g1) && Step(d, catalog, g1, r1, g2)
    ensures Run(d, catalog, [g0, g1, g2], [r0, r1])
  {}

  /** An analysis that finds one threat both ways, then `generate` with the engine's copy of it: from the empty
      register to one that does not mirror the engine. */
  lemma GenerateCanMissMirror(d: Digits, catalog: seq<CatalogEntry>)
    returns (states: seq<Register>, requests: seq<Request>)
    ensures Run(d, catalog, states, requests) && states[0] == EMPTY_REGISTER && |states| == 3
    ensures requests[1].Generate? && !Mirrors(states[2].rows, requests[1].gts)
  {
    var gt := Generated("R-1", "T-001", "Tampering", "", "High", "", [], [], None, FromBoth, false, 50);
    var t, t' := FreshRow(gt, 0), GeneratedRow(gt, 1);
    var g1 := Register(map[0 := t], map[0 := []], {0});
    var g2 := Register(map[0 := t, 1 := t'], map[0 := [], 1 := []], {0, 1});
    AnalyzedFirst(gt, t, g1);
    GeneratedSecond(gt, t, t', g1, g2);
    var first, second := Request.Analyze([gt], [0], 0), Request.Generate([gt], [1], 1);
    states, requests := [EMPTY_REGISTER, g1, g2], [first, second];
    TwoSteps(d, catalog, EMPTY_REGISTER, first, g1, second, g2);
    assert g1.rows[0].source == AIRules;
    GenerateMirrorsIff(g1, [gt], [1], 1, g2);
  }

  lemma AnalyzedFirst(gt: Generated, t: Threat, g1: Register)
    requires t == FreshRow(gt, 0) && g1 == Register(map[0 := t], map[0 := []], {0})
    ensures AnalyzeStep(EMPTY_REGISTER, [gt], [0], 0, g1)
  {
    assert g1.audit == CarryAudit(EMPTY_REGISTER, g1.rows);
    assert Group(EMPTY_REGISTER.rows, IdentityOf(gt)) == {};
    assert Holds(EMPTY_REGISTER.rows, g1.rows, 0, gt, 0);
  }

  lemma GeneratedSecond(gt: Generated, t: Threat, t': Threat, g1: Register, g2: Register)
    requires t.source != Rules && t' == GeneratedRow(gt, 1)
    requires g1 == Register(map[0 := t], map[0 := []], {0})
    requires g2 == Register(map[0 := t, 1 := t'], map[0 := [], 1 := []], {0, 1})
    ensures GenerateStep(g1, [gt], [1], 1, g2)
  {
    assert g2.audit == CarryAudit(g1, g2.rows);
  }
}
