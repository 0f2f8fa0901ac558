/** Manual creations that overlap: the endpoint takes no lock, so another request may commit between the query that
    finds the largest number in use and the insert. */
module ManualOverlap {
  import opened Wrappers
  import opened PyText
  import opened DisplayIds
  import opened Threats
  import opened ThreatCatalog
  import opened ThreatSteps
  import opened Numbering

  type Worker = nat

  /** The committed rows, and the number each waiting worker has computed. */
  datatype State = State(rows: map<Uuid, Threat>, pending: map<Worker, int>)

  /** `Review` stands for any request that keeps the set of rows and their display ids. */
  datatype Event =
    | Number(worker: Worker, n: int)
    | Insert(worker: Worker, manual: ManualBody, id: Uuid, now: Time)
    | Review(rows: map<Uuid, Threat>)

  function RowOf(catalog: seq<CatalogEntry>, s: State, e: Event): Result<Threat, ManualError>
    requires e.Insert? && e.worker in s.pending
  {
    ManualRow(catalog, e.manual, DisplayId(s.pending[e.worker]), e.now)
  }

  ghost predicate EventStep(d: Digits, catalog: seq<CatalogEntry>, s: State, e: Event, s': State) {
    match e
    case Number(w, n) =>
      w !in s.pending && NextManual(d, s.rows, n) && s' == s.(pending := s.pending[w := n])
    case Insert(w, _, id, _) =>
      && w in s.pending && id !in s.rows
      && s' == State(if RowOf(catalog, s, e).Ok? then s.rows[id := RowOf(catalog, s, e).value] else s.rows,
                     s.pending - {w})
    case Review(rows) =>
      SameDisplayIds(s.rows, rows) && s' == s.(rows := rows)
  }

  ghost predicate Interleaving(d: Digits, catalog: seq<CatalogEntry>, states: seq<State>, events: seq<Event>) {
    && |states| == |events| + 1
    && forall i | 0 <= i < |events| :: EventStep(d, catalog, states[i], events[i], states[i + 1])
  }

  // ---- What a waiting number still knows ----

  predicate Reads(d: Digits, t: Threat, n: int) {
    ManualNumber(d, t.displayId) == Some(n)
  }

  ghost predicate Taken(rows: map<Uuid, Threat>, n: int) {
    exists id | id in rows :: rows[id].displayId == DisplayId(n)
  }

  /** `n` was the next number some time ago: its predecessor is in use, and what has been taken since was taken
      from `n` upwards, one by one. */
  ghost predicate WasNext(d: Digits, rows: map<Uuid, Threat>, n: int) {
    && n > 0
    && (n == 1 || exists id | id in rows :: Reads(d, rows[id], n - 1))
    && forall id, m | id in rows && n <= m && Reads(d, rows[id], m) :: TakenFrom(rows, n, m)
  }

  ghost predicate TakenFrom(rows: map<Uuid, Threat>, n: int, m: int) {
    forall k | n <= k <= m :: Taken(rows, k)
  }

  ghost predicate Sound(d: Digits, s: State) {
    forall w | w in s.pending :: WasNext(d, s.rows, s.pending[w])
  }

  lemma NextWasNext(d: Digits, rows: map<Uuid, Threat>, n: int)
    requires NextManual(d, rows, n)
    ensures WasNext(d, rows, n)
  {
    if n != 1 {
      var id :| id in rows && ManualNumber(d, rows[id].displayId) == Some(n - 1);
      assert Reads(d, rows[id], n - 1);
    }
  }

  ghost predicate Grown(rows: map<Uuid, Threat>, rows': map<Uuid, Threat>) {
    forall id | id in rows :: id in rows' && rows'[id].displayId == rows[id].displayId
  }

  lemma StillTaken(rows: map<Uuid, Threat>, rows': map<Uuid, Threat>, n: int, m: int)
    requires Grown(rows, rows') && TakenFrom(rows, n, m)
    ensures TakenFrom(rows', n, m)
  {
    forall k | n <= k <= m && Taken(rows, k) ensures Taken(rows', k) {
      var x :| x in rows && rows[x].displayId == DisplayId(k);
      assert rows'[x].displayId == DisplayId(k);
    }
  }

  /** Everything from an older number up to the one below the inserted number was taken. */
  lemma TakenBelow(d: Digits, rows: map<Uuid, Threat>, n: int, k: int)
    requires WasNext(d, rows, n) && WasNext(d, rows, k)
    ensures TakenFrom(rows, n, k - 1)
  {
    if n < k {
      var x :| x in rows && Reads(d, rows[x], k - 1);
    }
  }

  lemma PredecessorStays(d: Digits, rows: map<Uuid, Threat>, rows': map<Uuid, Threat>, n: int)
    requires WasNext(d, rows, n) && Grown(rows, rows')
    ensures n == 1 || exists id | id in rows' :: Reads(d, rows'[id], n - 1)
  {
    if n != 1 {
      var x :| x in rows && Reads(d, rows[x], n - 1);
      assert Reads(d, rows'[x], n - 1);
    }
  }

  lemma TakenOneMore(rows: map<Uuid, Threat>, n: int, id: Uuid, k: int)
    requires TakenFrom(rows, n, k - 1) && id in rows && rows[id].displayId == DisplayId(k)
    ensures TakenFrom(rows, n, k)
  {
    assert Taken(rows, k);
  }

  lemma InsertedTaken(d: Digits, rows: map<Uuid, Threat>, n: int, rows': map<Uuid, Threat>, id: Uuid, k: int)
    requires WasNext(d, rows, n) && WasNext(d, rows, k) && Grown(rows, rows')
    requires id in rows' && rows'[id].displayId == DisplayId(k)
    ensures TakenFrom(rows', n, k)
  {
    TakenBelow(d, rows, n, k);
    StillTaken(rows, rows', n, k - 1);
    TakenOneMore(rows', n, id, k);
  }

  lemma OldTaken(d: Digits, rows: map<Uuid, Threat>, n: int, rows': map<Uuid, Threat>, id: Uuid, m: int)
    requires WasNext(d, rows, n) && Grown(rows, rows') && id in rows && n <= m && Reads(d, rows'[id], m)
    ensures TakenFrom(rows', n, m)
  {
    assert Reads(d, rows[id], m);
    StillTaken(rows, rows', n, m);
  }

  /** Inserting a number that was next leaves every other such number one. */
  lemma InsertWasNext(d: Digits, rows: map<Uuid, Threat>, n: int, rows': map<Uuid, Threat>, id: Uuid, k: int)
    requires WasNext(d, rows, n) && WasNext(d, rows, k) && Grown(rows, rows')
    requires rows'.Keys == rows.Keys + {id} && rows'[id].displayId == DisplayId(k) && Reads(d, rows'[id], k)
    ensures WasNext(d, rows', n)
  {
    PredecessorStays(d, rows, rows', n);
    InsertedTaken(d, rows, n, rows', id, k);
    forall x, m | x in rows' && n <= m && Reads(d, rows'[x], m) ensures TakenFrom(rows', n, m) {
      if x != id {
        OldTaken(d, rows, n, rows', x, m);
      }
    }
  }

  lemma ReviewWasNext(d: Digits, rows: map<Uuid, Threat>, n: int, rows': map<Uuid, Threat>)
    requires WasNext(d, rows, n) && SameDisplayIds(rows, rows')
    ensures WasNext(d, rows', n)
  {
    PredecessorStays(d, rows, rows', n);
    forall x, m | x in rows' && n <= m && Reads(d, rows'[x], m) ensures TakenFrom(rows', n, m) {
      OldTaken(d, rows, n, rows', x, m);
    }
  }

  lemma InsertSound(d: Digits, catalog: seq<CatalogEntry>, s: State, e: Event, s': State, n: int)
    requires DigitTable(d) && Sound(d, s) && e.Insert? && EventStep(d, catalog, s, e, s') && WasNext(d, s.rows, n)
    ensures WasNext(d, s'.rows, n)
  {
    if RowOf(catalog, s, e).Ok? {
      var k := s.pending[e.worker];
      assert WasNext(d, s.rows, k);
      assert s'.rows[e.id].displayId == DisplayId(k);
      ManualReads(d, k);
      InsertWasNext(d, s.rows, n, s'.rows, e.id, k);
    }
  }

  lemma EventSound(d: Digits, catalog: seq<CatalogEntry>, s: State, e: Event, s': State)
    requires DigitTable(d) && Sound(d, s) && EventStep(d, catalog, s, e, s')
    ensures Sound(d, s')
  {
    forall v | v in s'.pending ensures WasNext(d, s'.rows, s'.pending[v]) {
      match e
      case Number(w, n) => if v == w { NextWasNext(d, s.rows, n); }
      case Insert(_, _, _, _) => InsertSound(d, catalog, s, e, s', s.pending[v]);
      case Review(rows) => ReviewWasNext(d, s.rows, s.pending[v], rows);
    }
  }

  // ---- A number is taken exactly when it is no longer the next one ----

  lemma PassedIsTaken(d: Digits, rows: map<Uuid, Threat>, n: int, id: Uuid, m: int)
    requires WasNext(d, rows, n) && id in rows && Reads(d, rows[id], m)
    ensures n <= m ==> Taken(rows, n)
  {
    if n <= m {
      assert TakenFrom(rows, n, m);
    }
  }

  lemma TakenIffPassed(d: Digits, rows: map<Uuid, Threat>, n: int)
    requires DigitTable(d) && WasNext(d, rows, n)
    ensures Taken(rows, n) <==> !NextManual(d, rows, n)
  {
    if Taken(rows, n) {
      var id :| id in rows && rows[id].displayId == DisplayId(n);
      ManualReads(d, n);
    } else {
      forall id | id in rows && ManualNumber(d, rows[id].displayId).Some?
        ensures ManualNumber(d, rows[id].displayId).value < n
      {
        PassedIsTaken(d, rows, n, id, ManualNumber(d, rows[id].displayId).value);
      }
      if n != 1 {
        var id :| id in rows && Reads(d, rows[id], n - 1);
        assert ManualNumber(d, rows[id].displayId) == Some(n - 1);
      }
    }
  }

  /** An accepted insert finds its number still the next one; anything else may happen meanwhile. */
  ghost predicate InTime(d: Digits, catalog: seq<CatalogEntry>, s: State, e: Event) {
    e.Insert? && e.worker in s.pending && RowOf(catalog, s, e).Ok? ==> NextManual(d, s.rows, s.pending[e.worker])
  }

  lemma InsertDistinctIff(rows: map<Uuid, Threat>, id: Uuid, t: Threat, n: int)
    requires id !in rows && t.displayId == DisplayId(n)
    ensures DistinctDisplayIds(rows[id := t]) <==> DistinctDisplayIds(rows) && !Taken(rows, n)
  {
    var rows' := rows[id := t];
    if DistinctDisplayIds(rows') {
      forall a, b | a in rows && b in rows && a != b ensures rows[a].displayId != rows[b].displayId {
        assert rows'[a] == rows[a] && rows'[b] == rows[b];
      }
      forall a | a in rows ensures rows[a].displayId != DisplayId(n) {
        assert rows'[a].displayId != rows'[id].displayId;
      }
    }
  }

  lemma EventDistinctIff(d: Digits, catalog: seq<CatalogEntry>, s: State, e: Event, s': State)
    requires DigitTable(d) && Sound(d, s) && EventStep(d, catalog, s, e, s')
    ensures DistinctDisplayIds(s'.rows) <==> DistinctDisplayIds(s.rows) && InTime(d, catalog, s, e)
  {
    match e
    case Number(_, _) =>
    case Insert(w, body, id, now) =>
      if RowOf(catalog, s, e).Ok? {
        var n := s.pending[w];
        assert WasNext(d, s.rows, n);
        TakenIffPassed(d, s.rows, n);
        InsertDistinctIff(s.rows, id, RowOf(catalog, s, e).value, n);
      }
    case Review(rows) => SameDisplayIdsDistinct(s.rows, rows);
  }

  lemma {:induction false} InterleavingSound(d: Digits, catalog: seq<CatalogEntry>, states: seq<State>,
                                             events: seq<Event>, i: nat)
    requires DigitTable(d) && Interleaving(d, catalog, states, events) && states[0].pending == map[] && i < |states|
    ensures Sound(d, states[i])
  {
    if i > 0 {
      InterleavingSound(d, catalog, states, events, i - 1);
      EventSound(d, catalog, states[i - 1], events[i - 1], states[i]);
    }
  }

  /** Each of the first `n` events. */
  ghost predicate AllInTime(d: Digits, catalog: seq<CatalogEntry>, states: seq<State>, events: seq<Event>, n: nat)
    requires n <= |events| <= |states|
  {
    n > 0 ==>
      AllInTime(d, catalog, states, events, n - 1) && InTime(d, catalog, states[n - 1], events[n - 1])
  }

  lemma InterleavingStep(d: Digits, catalog: seq<CatalogEntry>, states: seq<State>, events: seq<Event>, i: nat)
    requires Interleaving(d, catalog, states, events) && i < |events|
    ensures EventStep(d, catalog, states[i], events[i], states[i + 1])
  {}

  /** However manual creations overlap with each other and with reviews, the display ids are distinct at every point
      exactly when they were at the start and no insert so far came after another one had taken its number. */
  lemma {:induction false} OverlapDistinctIff(d: Digits, catalog: seq<CatalogEntry>, states: seq<State>,
                                              events: seq<Event>, n: nat)
    requires DigitTable(d) && Interleaving(d, catalog, states, events) && states[0].pending == map[] && n <= |events|
    ensures DistinctDisplayIds(states[n].rows) <==>
              DistinctDisplayIds(states[0].rows) && AllInTime(d, catalog, states, events, n)
  {
    if n > 0 {
      OverlapDistinctIff(d, catalog, states, events, n - 1);
      InterleavingSound(d, catalog, states, events, n - 1);
      InterleavingStep(d, catalog, states, events, n - 1);
      EventDistinctIff(d, catalog, states[n - 1], events[n - 1], states[n]);
    }
  }

  /** Two analysts on an empty register, both numbering before either inserts. */
  lemma OverlapCanCollide(d: Digits, catalog: seq<CatalogEntry>) returns (states: seq<State>, events: seq<Event>)
    requires DigitTable(d)
    ensures Interleaving(d, catalog, states, events) && states[0] == State(map[], map[]) && |states| == 5
    ensures !DistinctDisplayIds(states[4].rows)
  {
    var body := ManualBody(None, None, Some("Custom"), None, None, Some([]));
    var t := FirstManual(d, catalog, body);
    states, events := BothInsert(d, catalog, body, t);
  }

  lemma BothInsert(d: Digits, catalog: seq<CatalogEntry>, body: ManualBody, t: Threat)
    returns (states: seq<State>, events: seq<Event>)
    requires ManualRow(catalog, body, DisplayId(1), 0) == Ok(t)
    ensures Interleaving(d, catalog, states, events) && states[0] == State(map[], map[]) && |states| == 5
    ensures !DistinctDisplayIds(states[4].rows)
  {
    var s1, s2 := State(map[], map[0 := 1]), State(map[], map[0 := 1, 1 := 1]);
    var s3, s4 := State(map[0 := t], map[1 := 1]), State(map[0 := t, 1 := t], map[]);
    assert s4.rows[0].displayId == s4.rows[1].displayId;
    events := [Number(0, 1), Number(1, 1), Insert(0, body, 0, 0), Insert(1, body, 1, 0)];
    states := [State(map[], map[]), s1, s2, s3, s4];
  }
}
