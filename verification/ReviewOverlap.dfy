/** Reviews of one threat that overlap: single triage takes no lock, so any review may commit between another one's
    query and its update.  The update writes the columns whose value differs from the one that was read. */
module ReviewOverlap {
  import opened Wrappers
  import opened Threats
  import opened ThreatRuns

  type Worker = nat

  datatype Write = ByTriage(triage: TriageBody) | ByBulk(bulk: BulkBody) | ByQualify(qualify: QualifyBody)

  /** The committed row and its audit entries in commit order, and the row as each waiting worker read it. */
  datatype State = State(row: Threat, log: seq<Entry>, loaded: map<Worker, Threat>)

  datatype Event = Load(worker: Worker) | Store(worker: Worker, write: Write, now: Time)

  /** What the endpoint does not refuse. */
  predicate Admitted(w: Write) {
    match w
    case ByTriage(b) => !(b.status == Dismissed && Blank(b.dismissReason))
    case ByBulk(b) => !(b.status == Dismissed && Blank(b.dismissReason))
    case ByQualify(b) => ValidQualify(b)
  }

  function Wanted(t: Threat, w: Write, now: Time): Threat {
    match w
    case ByTriage(b) => TriagedRow(t, b, now)
    case ByBulk(b) => BulkRow(t, b, now)
    case ByQualify(b) => QualifiedRow(t, b, now)
  }

  function Entries(t: Threat, w: Write, now: Time): seq<Entry> {
    match w
    case ByTriage(b) => TriageEntries(t, b)
    case ByBulk(b) => [Triaged(t.status, b.status, BulkReason(b))]
    case ByQualify(b) => [Qualified(t.status, QualifiedRow(t, b, now).status, QualifyReason(b))]
  }

  function Column<T(==)>(current: T, read: T, wanted: T): T {
    if wanted == read then current else wanted
  }

  /** The row after the update: no review touches a column that is not listed. */
  function Merged(current: Threat, read: Threat, wanted: Threat): Threat {
    current.(
      status := Column(current.status, read.status, wanted.status),
      severity := Column(current.severity, read.severity, wanted.severity),
      dismissReason := Column(current.dismissReason, read.dismissReason, wanted.dismissReason),
      plan := Column(current.plan, read.plan, wanted.plan),
      owner := Column(current.owner, read.owner, wanted.owner),
      dueDate := Column(current.dueDate, read.dueDate, wanted.dueDate),
      notes := Column(current.notes, read.notes, wanted.notes),
      control := Column(current.control, read.control, wanted.control),
      residual := Column(current.residual, read.residual, wanted.residual),
      closedAt := Column(current.closedAt, read.closedAt, wanted.closedAt),
      score := Column(current.score, read.score, wanted.score),
      analystScore := Column(current.analystScore, read.analystScore, wanted.analystScore),
      analystRationale := Column(current.analystRationale, read.analystRationale, wanted.analystRationale),
      note := Column(current.note, read.note, wanted.note),
      falsePositive := Column(current.falsePositive, read.falsePositive, wanted.falsePositive),
      qualifiedAt := Column(current.qualifiedAt, read.qualifiedAt, wanted.qualifiedAt))
  }

  function AfterStore(row: Threat, log: seq<Entry>, read: Threat, w: Write, now: Time, left: map<Worker, Threat>)
    : State
  {
    State(Merged(row, read, Wanted(read, w, now)), log + Entries(read, w, now), left)
  }

  /** The lock that bulk triage and qualification take only rules some of these runs out. */
  ghost predicate EventStep(s: State, e: Event, s': State) {
    match e
    case Load(w) =>
      w !in s.loaded && s' == s.(loaded := s.loaded[w := s.row])
    case Store(w, write, now) =>
      && w in s.loaded && Admitted(write)
      && s' == AfterStore(s.row, s.log, s.loaded[w], write, now, s.loaded - {w})
  }

  ghost predicate Interleaving(states: seq<State>, events: seq<Event>) {
    && |states| == |events| + 1 && states[0].loaded == map[]
    && forall i | 0 <= i < |events| :: EventStep(states[i], events[i], states[i + 1])
  }

  lemma InterleavingStep(states: seq<State>, events: seq<Event>, i: nat)
    requires Interleaving(states, events) && i < |events|
    ensures EventStep(states[i], events[i], states[i + 1])
  {}

  /** A column the review changes gets its value, every other one what stands there by then. */
  ghost predicate ColumnMerged<T>(now: T, current: T, read: T, wanted: T) {
    (wanted == read ==> now == current) && (wanted != read ==> now == wanted)
  }

  lemma MergesColumns(current: Threat, read: Threat, wanted: Threat)
    ensures var now := Merged(current, read, wanted);
            && ColumnMerged(now.severity, current.severity, read.severity, wanted.severity)
            && ColumnMerged(now.plan, current.plan, read.plan, wanted.plan)
            && ColumnMerged(now.owner, current.owner, read.owner, wanted.owner)
            && ColumnMerged(now.dueDate, current.dueDate, read.dueDate, wanted.dueDate)
            && ColumnMerged(now.notes, current.notes, read.notes, wanted.notes)
            && ColumnMerged(now.control, current.control, read.control, wanted.control)
            && ColumnMerged(now.residual, current.residual, read.residual, wanted.residual)
            && ColumnMerged(now.score, current.score, read.score, wanted.score)
            && ColumnMerged(now.analystScore, current.analystScore, read.analystScore, wanted.analystScore)
            && ColumnMerged(now.analystRationale, current.analystRationale, read.analystRationale,
                            wanted.analystRationale)
            && ColumnMerged(now.note, current.note, read.note, wanted.note)
            && ColumnMerged(now.qualifiedAt, current.qualifiedAt, read.qualifiedAt, wanted.qualifiedAt)
  {}

  // ---- Undisturbed, the update is the whole new row ----

  lemma MergedUndisturbed(t: Threat, w: Write, now: Time)
    ensures Merged(t, t, Wanted(t, w, now)) == Wanted(t, w, now)
  {
    match w
    case ByTriage(b) => MergedTriage(t, b, now);
    case ByBulk(b) => MergedBulk(t, b, now);
    case ByQualify(b) => MergedQualify(t, b, now);
  }

  lemma MergedTriage(t: Threat, b: TriageBody, now: Time)
    ensures Merged(t, t, TriagedRow(t, b, now)) == TriagedRow(t, b, now)
  {}

  lemma MergedBulk(t: Threat, b: BulkBody, now: Time)
    ensures Merged(t, t, BulkRow(t, b, now)) == BulkRow(t, b, now)
  {}

  lemma MergedQualify(t: Threat, b: QualifyBody, now: Time)
    ensures Merged(t, t, QualifiedRow(t, b, now)) == QualifiedRow(t, b, now)
  {}

  // ---- The audit trail ----

  /** Where the entries of a write lead a trail that has reached `from`. */
  lemma EntriesReplay(log: seq<Entry>, t: Threat, w: Write, now: Time)
    ensures Replay(log + Entries(t, w, now)) ==
            if Replay(log) == Some(t.status) then Some(Wanted(t, w, now).status) else None
  {
    match w
    case ByTriage(b) => ReplayTriage(log, t, b);
    case ByBulk(b) => ReplaySnoc(log, Triaged(t.status, b.status, BulkReason(b)));
    case ByQualify(b) => ReplaySnoc(log, Qualified(t.status, QualifiedRow(t, b, now).status, QualifyReason(b)));
  }

  ghost predicate Replays(s: State) {
    Replay(s.log) == Some(s.row.status)
  }

  ghost predicate Broken(s: State) {
    Replay(s.log) == None
  }

  /** The status did not change between read and update. */
  ghost predicate StatusCurrent(s: State, e: Event) {
    e.Store? && e.worker in s.loaded ==> s.loaded[e.worker].status == s.row.status
  }

  lemma EventReplays(s: State, e: Event, s': State)
    requires EventStep(s, e, s')
    ensures Replays(s) && StatusCurrent(s, e) ==> Replays(s')
    ensures Broken(s) || (Replays(s) && !StatusCurrent(s, e)) ==> Broken(s')
  {
    if e.Store? {
      EntriesReplay(s.log, s.loaded[e.worker], e.write, e.now);
    }
  }

  ghost predicate AllCurrent(states: seq<State>, events: seq<Event>, n: nat)
    requires n <= |events| <= |states|
  {
    forall i | 0 <= i < n :: StatusCurrent(states[i], events[i])
  }

  lemma AllCurrentSnoc(states: seq<State>, events: seq<Event>, n: nat)
    requires 0 < n <= |events| <= |states|
    ensures AllCurrent(states, events, n) <==>
              AllCurrent(states, events, n - 1) && StatusCurrent(states[n - 1], events[n - 1])
  {}

  /** The trail replays to the row's status as long as every update finds the status it read, and never again after
      one that does not. */
  lemma {:induction false} ReplayBreaks(states: seq<State>, events: seq<Event>, n: nat)
    requires Interleaving(states, events) && Replays(states[0]) && n <= |events|
    ensures if AllCurrent(states, events, n) then Replays(states[n]) else Broken(states[n])
  {
    if n > 0 {
      ReplayBreaks(states, events, n - 1);
      AllCurrentSnoc(states, events, n);
      InterleavingStep(states, events, n - 1);
      EventReplays(states[n - 1], events[n - 1], states[n]);
    }
  }

  // ---- Closing and explaining ----

  /** A waiting worker read an explained row; a false-positive reason is never removed. */
  ghost predicate Snapshots(s: State) {
    forall w | w in s.loaded :: Snapshot(s.row, s.loaded[w])
  }

  ghost predicate Snapshot(current: Threat, read: Threat) {
    Explained(read) && (read.falsePositive.Some? ==> current.falsePositive.Some?)
  }

  /** The reason was read and is not written again, but somebody took it away meanwhile. */
  predicate ReasonLost(current: Threat, read: Threat, w: Write) {
    && Blank(current.dismissReason) && current.falsePositive == None
    && match w
       case ByTriage(b) => b.status == Dismissed && b.dismissReason == read.dismissReason
       case ByBulk(b) => b.status == Dismissed && b.dismissReason == read.dismissReason
       case ByQualify(_) => false
  }

  ghost predicate Fresh(s: State, e: Event) {
    e.Store? && e.worker in s.loaded ==>
      s.loaded[e.worker].status == s.row.status && !ReasonLost(s.row, s.loaded[e.worker], e.write)
  }

  /** The columns the invariant speaks of. */
  ghost predicate Columns(row': Threat, current: Threat, read: Threat, wanted: Threat) {
    && ColumnMerged(row'.status, current.status, read.status, wanted.status)
    && ColumnMerged(row'.dismissReason, current.dismissReason, read.dismissReason, wanted.dismissReason)
    && ColumnMerged(row'.closedAt, current.closedAt, read.closedAt, wanted.closedAt)
    && ColumnMerged(row'.falsePositive, current.falsePositive, read.falsePositive, wanted.falsePositive)
  }

  lemma MergedColumns(current: Threat, read: Threat, wanted: Threat)
    ensures Columns(Merged(current, read, wanted), current, read, wanted)
  {}

  lemma TriageExplained(current: Threat, read: Threat, b: TriageBody, now: Time, row': Threat)
    requires Explained(current) && Snapshot(current, read) && Admitted(ByTriage(b)) && read.status == current.status
    requires Columns(row', current, read, TriagedRow(read, b, now))
    ensures Explained(row') <==> !ReasonLost(current, read, ByTriage(b))
  {
    var wanted := TriagedRow(read, b, now);
    assert wanted.status == b.status && wanted.falsePositive == read.falsePositive;
    assert wanted.closedAt == if Terminal(b.status) then Some(now) else None;
    assert b.status == Dismissed ==> wanted.dismissReason == b.dismissReason;
  }

  lemma BulkExplained(current: Threat, read: Threat, b: BulkBody, now: Time, row': Threat)
    requires Explained(current) && Snapshot(current, read) && Admitted(ByBulk(b)) && read.status == current.status
    requires Columns(row', current, read, BulkRow(read, b, now))
    ensures Explained(row') <==> !ReasonLost(current, read, ByBulk(b))
  {
    var wanted := BulkRow(read, b, now);
    assert wanted.status == b.status && wanted.falsePositive == read.falsePositive;
    assert b.status == Dismissed ==> wanted.dismissReason == b.dismissReason;
  }

  lemma QualifyExplained(current: Threat, read: Threat, b: QualifyBody, now: Time, row': Threat)
    requires Explained(current) && Snapshot(current, read) && Admitted(ByQualify(b)) && read.status == current.status
    requires Columns(row', current, read, QualifiedRow(read, b, now))
    ensures Explained(row')
  {
    var wanted := QualifiedRow(read, b, now);
    if b.action == Dismiss {
      assert wanted.status == Dismissed && wanted.closedAt == Some(now) && wanted.falsePositive == b.falsePositive;
    } else {
      assert wanted.status == read.status && wanted.closedAt == read.closedAt;
      assert wanted.dismissReason == read.dismissReason && wanted.falsePositive == read.falsePositive;
    }
  }

  lemma StoreExplained(current: Threat, read: Threat, w: Write, now: Time, row': Threat)
    requires Explained(current) && Snapshot(current, read) && Admitted(w) && read.status == current.status
    requires Columns(row', current, read, Wanted(read, w, now))
    ensures Explained(row') <==> !ReasonLost(current, read, w)
  {
    match w
    case ByTriage(b) => TriageExplained(current, read, b, now, row');
    case ByBulk(b) => BulkExplained(current, read, b, now, row');
    case ByQualify(b) => QualifyExplained(current, read, b, now, row');
  }

  lemma ReasonsStay(current: Threat, read: Threat, w: Write, now: Time, row': Threat)
    requires Columns(row', current, read, Wanted(read, w, now)) && Admitted(w)
    ensures current.falsePositive.Some? ==> row'.falsePositive.Some?
  {
    var wanted := Wanted(read, w, now);
    match w
    case ByTriage(b) => assert wanted.falsePositive == read.falsePositive;
    case ByBulk(b) => assert wanted.falsePositive == read.falsePositive;
    case ByQualify(b) => assert wanted.falsePositive == read.falsePositive || wanted.falsePositive.Some?;
  }

  lemma EventSnapshots(s: State, e: Event, s': State)
    requires Snapshots(s) && SoundRow(s.row, s.log) && EventStep(s, e, s')
    ensures Snapshots(s')
  {
    if e.Store? {
      var read := s.loaded[e.worker];
      MergedColumns(s.row, read, Wanted(read, e.write, e.now));
      ReasonsStay(s.row, read, e.write, e.now, s'.row);
    }
  }

  lemma EventSoundIff(s: State, e: Event, s': State)
    requires Snapshots(s) && SoundRow(s.row, s.log) && EventStep(s, e, s')
    ensures SoundRow(s'.row, s'.log) <==> Fresh(s, e)
  {
    EventReplays(s, e, s');
    if e.Store? && StatusCurrent(s, e) {
      var read := s.loaded[e.worker];
      MergedColumns(s.row, read, Wanted(read, e.write, e.now));
      StoreExplained(s.row, read, e.write, e.now, s'.row);
    }
  }

  ghost predicate AllSound(states: seq<State>, n: nat)
    requires n < |states|
  {
    forall i | 0 <= i <= n :: SoundRow(states[i].row, states[i].log)
  }

  ghost predicate AllFresh(states: seq<State>, events: seq<Event>, n: nat)
    requires n <= |events| <= |states|
  {
    forall i | 0 <= i < n :: Fresh(states[i], events[i])
  }

  /** However reviews overlap, the row stays closed, explained and replayable all the way exactly when every update
      finds the status it read, and no dismissal counts on a reason that somebody took away. */
  lemma {:induction false} OverlapSoundIff(states: seq<State>, events: seq<Event>, n: nat)
    requires Interleaving(states, events) && SoundRow(states[0].row, states[0].log) && n <= |events|
    ensures AllSound(states, n) <==> AllFresh(states, events, n)
    ensures AllSound(states, n) ==> Snapshots(states[n])
  {
    if n > 0 {
      OverlapSoundIff(states, events, n - 1);
      if AllSound(states, n - 1) {
        EventSoundIff(states[n - 1], events[n - 1], states[n]);
        EventSnapshots(states[n - 1], events[n - 1], states[n]);
      }
    }
  }

  /** An update that finds the row as it was read is fresh: reviews that do not overlap keep the row sound. */
  lemma UndisturbedIsFresh(s: State, e: Event)
    requires e.Store? && e.worker in s.loaded && s.loaded[e.worker] == s.row && Admitted(e.write)
    ensures Fresh(s, e)
  {}

  // ---- Two triages of one open threat ----

  function Verdict(status: Status, reason: Option<string>): TriageBody {
    TriageBody(status, None, reason, None, None, None, None, None, None)
  }

  /** Both read the row before either updates it. */
  lemma BothRead(t: Threat, first: Write, second: Write, now: Time) returns (states: seq<State>, events: seq<Event>)
    requires Admitted(first) && Admitted(second)
    ensures Interleaving(states, events) && |states| == 5 && states[0] == State(t, [], map[])
    ensures events[3] == Store(1, second, now) && states[3].loaded == map[1 := t]
    ensures states[3].row == Merged(t, t, Wanted(t, first, now))
    ensures states[4].row == Merged(states[3].row, t, Wanted(t, second, now))
  {
    var s2, s3 := State(t, [], map[0 := t, 1 := t]), AfterStore(t, [], t, first, now, map[1 := t]);
    var s4 := AfterStore(s3.row, s3.log, t, second, now, map[]);
    assert s2.loaded - {0} == map[1 := t] && s3.loaded - {1} == map[];
    events := [Load(0), Load(1), Store(0, first, now), Store(1, second, now)];
    states := [State(t, [], map[]), State(t, [], map[0 := t]), s2, s3, s4];
  }

  /** One analyst dismisses while the other starts to work on it: the threat ends in progress but closed, and its
      trail no longer replays. */
  lemma OverlapCanBreak(t: Threat, now: Time) returns (states: seq<State>, events: seq<Event>)
    requires t.status == Open && t.closedAt == None
    ensures Interleaving(states, events) && |states| == 5 && states[0] == State(t, [], map[])
    ensures SoundRow(states[0].row, states[0].log)
    ensures states[4].row.status == InProgress && states[4].row.closedAt == Some(now)
    ensures Replay(states[4].log) == None
  {
    var first, second := ByTriage(Verdict(Dismissed, Some("noise"))), ByTriage(Verdict(InProgress, None));
    states, events := BothRead(t, first, second, now);
    MergedColumns(t, t, Wanted(t, first, now));
    MergedColumns(states[3].row, t, Wanted(t, second, now));
    assert !StatusCurrent(states[3], events[3]);
    ReplayBreaks(states, events, 4);
  }
}
