/** The qualification queue: what is waiting, in which order it is handed out, and that it drains. */
module Qualification {
  import opened Wrappers
  import opened PyText
  import opened Threats
  import opened Reconcile
  import opened ThreatCatalog
  import opened ThreatSteps
  import opened ThreatRuns

  // ---- Queue order: unclustered first, then score descending, then display id ----

  /** `a < b` for Python strings. */
  predicate TextLess(a: string, b: string) {
    b != "" && (a == "" || a[0] < b[0] || (a[0] == b[0] && TextLess(a[1..], b[1..])))
  }

  function ScoreOf(t: Threat): int {
    if t.score.Some? then t.score.value else 0
  }

  /** The tuple `(is_clustered, -score, display_id)`, compared. */
  predicate Before(t: Threat, u: Threat) {
    if t.clusterId.Some? != u.clusterId.Some? then t.clusterId == None
    else if ScoreOf(t) != ScoreOf(u) then ScoreOf(t) > ScoreOf(u)
    else TextLess(t.displayId, u.displayId)
  }

  lemma {:induction false} TextLessTrans(a: string, b: string, c: string)
    requires TextLess(a, b) && TextLess(b, c)
    ensures TextLess(a, c)
    decreases |a|
  {
    if a != "" && a[0] == b[0] && b[0] == c[0] {
      TextLessTrans(a[1..], b[1..], c[1..]);
    }
  }

  lemma {:induction false} TextLessTotal(a: string, b: string)
    ensures a == b || TextLess(a, b) || TextLess(b, a)
    ensures !(TextLess(a, b) && TextLess(b, a))
    decreases |a|
  {
    if a != "" && b != "" && a[0] == b[0] {
      TextLessTotal(a[1..], b[1..]);
      assert a == [a[0]] + a[1..] && b == [b[0]] + b[1..];
    }
  }

  /** The order of Python strings, read off the characters: a proper prefix comes first, else the first position
      where the two differ decides. */
  ghost predicate ReadsFirst(a: string, b: string) {
    a < b || exists i | 0 <= i < |a| && i < |b| :: a[..i] == b[..i] && a[i] < b[i]
  }

  lemma DiffersLater(c: char, a: string, b: string, i: nat)
    requires i < |a| && i < |b| && a[..i] == b[..i] && a[i] < b[i]
    ensures ReadsFirst([c] + a, [c] + b)
  {
    var a', b' := [c] + a, [c] + b;
    assert a'[..i + 1] == [c] + a[..i] && b'[..i + 1] == [c] + b[..i];
    assert a'[i + 1] == a[i] && b'[i + 1] == b[i];
  }

  lemma DiffersEarlier(c: char, a: string, b: string)
    requires ReadsFirst([c] + a, [c] + b)
    ensures ReadsFirst(a, b)
  {
    var a', b' := [c] + a, [c] + b;
    assert a'[1..] == a && b'[1..] == b;
    if a' < b' {
      assert b'[..|a'|][1..] == b[..|a|];
    } else {
      var i :| 0 <= i < |a'| && i < |b'| && a'[..i] == b'[..i] && a'[i] < b'[i];
      assert a'[..i][1..] == a[..i - 1] && b'[..i][1..] == b[..i - 1];
    }
  }

  lemma {:induction false} TextLessMeans(a: string, b: string)
    ensures TextLess(a, b) <==> ReadsFirst(a, b)
    decreases |a|
  {
    if a != "" && b != "" {
      assert a == [a[0]] + a[1..] && b == [b[0]] + b[1..];
      if a[0] == b[0] {
        TextLessMeans(a[1..], b[1..]);
        if ReadsFirst(a, b) { DiffersEarlier(a[0], a[1..], b[1..]); }
        if ReadsFirst(a[1..], b[1..]) { ReadsFirstCons(a[0], a[1..], b[1..]); }
      } else if a[0] < b[0] {
        assert a[..0] == b[..0];
      } else {
        FirstDecides(a, b);
      }
    }
  }

  lemma ReadsFirstCons(c: char, a: string, b: string)
    requires ReadsFirst(a, b)
    ensures ReadsFirst([c] + a, [c] + b)
  {
    if i :| 0 <= i < |a| && i < |b| && a[..i] == b[..i] && a[i] < b[i] {
      DiffersLater(c, a, b, i);
    }
  }

  lemma FirstDecides(a: string, b: string)
    requires a != "" && b != "" && b[0] < a[0]
    ensures !ReadsFirst(a, b)
  {
    forall i | 0 <= i < |a| && i < |b| ensures !(a[..i] == b[..i] && a[i] < b[i]) {
      assert i > 0 ==> a[..i][0] == a[0] && b[..i][0] == b[0];
    }
  }

  /** What the queue promises of the threat it hands out, `p`, and any other that waits, `u`: threats outside every
      cluster go first, then higher scores - a missing one counts as 0 - then smaller display ids. */
  ghost predicate GoesFirst(p: Threat, u: Threat) {
    var scoreP, scoreU := if p.score.Some? then p.score.value else 0, if u.score.Some? then u.score.value else 0;
    && (u.clusterId == None ==> p.clusterId == None)
    && ((p.clusterId == None <==> u.clusterId == None) ==>
          && scoreP >= scoreU
          && (scoreP == scoreU ==> p.displayId == u.displayId || ReadsFirst(p.displayId, u.displayId)))
  }

  lemma NotAfterMeans(p: Threat, u: Threat)
    ensures GoesFirst(p, u) <==> !Before(u, p)
  {
    TextLessTotal(p.displayId, u.displayId);
    TextLessMeans(p.displayId, u.displayId);
    TextLessMeans(u.displayId, p.displayId);
  }

  /** "Not after" is a total preorder. */
  lemma NotAfterTrans(t: Threat, u: Threat, v: Threat)
    requires !Before(u, t) && !Before(v, u)
    ensures !Before(v, t)
  {
    TextLessTotal(t.displayId, u.displayId);
    TextLessTotal(u.displayId, v.displayId);
    if Before(v, t) && TextLess(v.displayId, t.displayId) {
      if TextLess(t.displayId, u.displayId) { TextLessTrans(v.displayId, t.displayId, u.displayId); }
      if TextLess(u.displayId, v.displayId) { TextLessTrans(u.displayId, v.displayId, t.displayId); }
    }
  }

  lemma BeforeAsymmetric(t: Threat, u: Threat)
    requires Before(t, u)
    ensures !Before(u, t)
  {
    TextLessTotal(t.displayId, u.displayId);
  }

  // ---- `candidates.sort(key=...)`, a stable sort ----

  function InsertRow(rows: map<Uuid, Threat>, id: Uuid, queue: seq<Uuid>): seq<Uuid>
    requires id in rows && forall x <- queue :: x in rows
  {
    if queue == [] || !Before(rows[queue[0]], rows[id]) then [id] + queue
    else [queue[0]] + InsertRow(rows, id, queue[1..])
  }

  lemma {:induction false} InsertRowKeeps(rows: map<Uuid, Threat>, id: Uuid, queue: seq<Uuid>)
    requires id in rows && forall x <- queue :: x in rows
    ensures multiset(InsertRow(rows, id, queue)) == multiset(queue) + multiset{id}
  {
    if queue != [] && Before(rows[queue[0]], rows[id]) {
      InsertRowKeeps(rows, id, queue[1..]);
      assert queue == [queue[0]] + queue[1..];
    }
  }

  lemma SameElements(s: seq<Uuid>, t: seq<Uuid>)
    requires multiset(s) == multiset(t)
    ensures forall x :: x in s <==> x in t
  {
    forall x ensures x in s <==> x in t {
      assert x in s <==> x in multiset(s);
      assert x in t <==> x in multiset(t);
    }
  }

  function Queue(rows: map<Uuid, Threat>, found: seq<Uuid>): (queue: seq<Uuid>)
    requires forall x <- found :: x in rows
    ensures multiset(queue) == multiset(found)
    ensures forall x <- queue :: x in rows
  {
    if found == [] then []
    else
      var rest := Queue(rows, found[1..]);
      InsertRowKeeps(rows, found[0], rest);
      assert found == [found[0]] + found[1..];
      SameElements(InsertRow(rows, found[0], rest), found);
      InsertRow(rows, found[0], rest)
  }

  /** Nothing in the queue comes before its head. */
  ghost predicate LeastFirst(rows: map<Uuid, Threat>, queue: seq<Uuid>)
    requires forall x <- queue :: x in rows
  {
    queue != [] ==> forall x <- queue :: !Before(rows[x], rows[queue[0]])
  }

  lemma NotBeforeItself(t: Threat)
    ensures !Before(t, t)
  {
    TextLessTotal(t.displayId, t.displayId);
  }

  lemma InsertRowLeast(rows: map<Uuid, Threat>, id: Uuid, queue: seq<Uuid>)
    requires id in rows && (forall x <- queue :: x in rows) && LeastFirst(rows, queue)
    ensures (forall x <- InsertRow(rows, id, queue) :: x in rows) && LeastFirst(rows, InsertRow(rows, id, queue))
  {
    var queue' := InsertRow(rows, id, queue);
    InsertRowKeeps(rows, id, queue);
    SameElements(queue', queue + [id]);
    forall x | x in queue' ensures !Before(rows[x], rows[queue'[0]]) {
      assert x in queue + [id];
      if queue'[0] == id {
        NotBeforeItself(rows[id]);
        if x in queue { NotAfterTrans(rows[id], rows[queue[0]], rows[x]); }
      } else if x == id {
        BeforeAsymmetric(rows[queue[0]], rows[id]);
      }
    }
  }

  lemma {:induction false} QueueLeastFirst(rows: map<Uuid, Threat>, found: seq<Uuid>)
    requires forall x <- found :: x in rows
    ensures LeastFirst(rows, Queue(rows, found))
  {
    if found != [] {
      QueueLeastFirst(rows, found[1..]);
      InsertRowLeast(rows, found[0], Queue(rows, found[1..]));
    }
  }

  // ---- The endpoints ----

  predicate Active(t: Threat) {
    t.status == Open || t.status == InProgress
  }

  function Waiting(rows: map<Uuid, Threat>): set<Uuid> {
    set id | id in rows && Active(rows[id]) && rows[id].qualifiedAt == None
  }

  function ActiveRows(rows: map<Uuid, Threat>): set<Uuid> {
    set id | id in rows && Active(rows[id])
  }

  /** `found` is a query result for the set `ids`, in an order the database chooses. */
  ghost predicate Answers(found: seq<Uuid>, ids: set<Uuid>) {
    Distinct(found) && forall id :: id in found <==> id in ids
  }

  /** `qualification/next`, given what its query found. */
  function Next(rows: map<Uuid, Threat>, found: seq<Uuid>): Option<Uuid>
    requires forall x <- found :: x in rows
  {
    if found == [] then None else Some(Queue(rows, found)[0])
  }

  /** Open or in progress, and not qualified yet. */
  ghost predicate AwaitsReview(rows: map<Uuid, Threat>, id: Uuid) {
    id in rows && (rows[id].status == Open || rows[id].status == InProgress) && rows[id].qualifiedAt == None
  }

  /** It hands out a waiting threat that goes before every other waiting threat, whatever order the query found
      them in. */
  lemma NextIsLeast(rows: map<Uuid, Threat>, found: seq<Uuid>)
    requires Answers(found, Waiting(rows))
    ensures Next(rows, found) == None <==> forall id :: !AwaitsReview(rows, id)
    ensures var next := Next(rows, found);
            next.Some? ==>
              AwaitsReview(rows, next.value)
              && forall id | AwaitsReview(rows, id) :: GoesFirst(rows[next.value], rows[id])
  {
    NextNotAfter(rows, found);
    assert forall id :: id in Waiting(rows) <==> AwaitsReview(rows, id);
    if Next(rows, found).Some? {
      var next := Next(rows, found).value;
      forall id | AwaitsReview(rows, id) ensures GoesFirst(rows[next], rows[id]) {
        NotAfterMeans(rows[next], rows[id]);
      }
    }
  }

  lemma NextNotAfter(rows: map<Uuid, Threat>, found: seq<Uuid>)
    requires Answers(found, Waiting(rows))
    ensures Next(rows, found) == None <==> Waiting(rows) == {}
    ensures var next := Next(rows, found);
            next.Some? ==>
              next.value in Waiting(rows) && forall id <- Waiting(rows) :: !Before(rows[id], rows[next.value])
  {
    if found == [] {
      assert Waiting(rows) == {};
    } else {
      assert found[0] in Waiting(rows);
      var queue := Queue(rows, found);
      SameElements(queue, found);
      QueueLeastFirst(rows, found);
      assert queue[0] in found;
      forall id | id in Waiting(rows) ensures !Before(rows[id], rows[queue[0]]) {
        assert id in queue;
      }
    }
  }

  datatype Progress = Progress(total: nat, qualified: nat, unqualified: int)

  /** `sum(1 for t in threats if t.qualification_completed_at is not None)`. */
  function Stamped(rows: map<Uuid, Threat>, found: seq<Uuid>): nat
    requires forall x <- found :: x in rows
  {
    if found == [] then 0 else Stamped(rows, found[1..]) + if rows[found[0]].qualifiedAt.Some? then 1 else 0
  }

  /** `qualification/progress`, given what its query found. */
  function ProgressOf(rows: map<Uuid, Threat>, found: seq<Uuid>): Progress
    requires forall x <- found :: x in rows
  {
    Progress(|found|, Stamped(rows, found), |found| - Stamped(rows, found))
  }

  lemma {:induction false} UnstampedCount(rows: map<Uuid, Threat>, found: seq<Uuid>, rest: set<Uuid>)
    requires Distinct(found) && (forall x <- found :: x in rows)
    requires forall id :: id in rest <==> id in found && rows[id].qualifiedAt == None
    ensures |rest| == |found| - Stamped(rows, found)
  {
    if found == [] {
      assert rest == {};
    } else {
      assert found == [found[0]] + found[1..];
      UnstampedCount(rows, found[1..], rest - {found[0]});
    }
  }

  lemma {:induction false} CountedOnce(found: seq<Uuid>, ids: set<Uuid>)
    requires Answers(found, ids)
    ensures |ids| == |found|
  {
    assert ids == Elements(found);
    DistinctCount(found);
  }

  /** Progress counts the open and in-progress threats; as unqualified it reports exactly those that wait, so `next`
      has nothing to hand out if and only if nothing is unqualified. */
  lemma ProgressCountsWaiting(rows: map<Uuid, Threat>, active: seq<Uuid>, found: seq<Uuid>)
    requires Answers(active, ActiveRows(rows)) && Answers(found, Waiting(rows))
    ensures var p, running := ProgressOf(rows, active),
                              set id | id in rows && (rows[id].status == Open || rows[id].status == InProgress);
            && p.total == |running| == p.qualified + p.unqualified
            && p.unqualified == |set id | id in running && rows[id].qualifiedAt == None|
            && (Next(rows, found) == None <==> p.unqualified == 0)
  {
    UnstampedCount(rows, active, Waiting(rows));
    CountedOnce(active, ActiveRows(rows));
    NextNotAfter(rows, found);
    var running := set id | id in rows && (rows[id].status == Open || rows[id].status == InProgress);
    assert running == ActiveRows(rows);
    assert Waiting(rows) == set id | id in running && rows[id].qualifiedAt == None;
  }

  // ---- Draining the queue ----

  /** One turn: what the `next` query found, and the answer to what it handed out. */
  datatype Turn = Turn(found: seq<Uuid>, body: QualifyBody, now: Time)

  ghost predicate TakesTurn(g: Register, t: Turn, pick: Uuid, g': Register) {
    && Answers(t.found, Waiting(g.rows)) && Next(g.rows, t.found) == Some(pick)
    && ValidQualify(t.body) && t.body.action != Defer
    && Qualify(g, pick, t.body, t.now) == Ok(g')
  }

  /** Repeating "next, then confirm or dismiss". */
  ghost predicate Session(states: seq<Register>, turns: seq<Turn>, picks: seq<Uuid>) {
    && |states| == |turns| + 1 && |picks| == |turns|
    && forall i | 0 <= i < |turns| :: TakesTurn(states[i], turns[i], picks[i], states[i + 1])
  }

  /** Confirming or dismissing takes a threat off the queue; deferring leaves it there. */
  lemma QualifyWaiting(g: Register, id: Uuid, b: QualifyBody, now: Time)
    requires id in Waiting(g.rows)
    ensures var g' := Qualify(g, id, b, now).value;
            && Waiting(g'.rows) == (if b.action == Defer then Waiting(g.rows) else Waiting(g.rows) - {id})
            && forall x | x in g.rows && x != id :: x in g'.rows && g'.rows[x] == g.rows[x]
  {
    var t' := QualifiedRow(g.rows[id], b, now);
    assert b.action == Defer ==> t'.status == g.rows[id].status && t'.qualifiedAt == None;
    assert b.action != Defer ==> t'.qualifiedAt == Some(now);
  }

  lemma TurnTakesOne(g: Register, t: Turn, pick: Uuid, g': Register)
    requires TakesTurn(g, t, pick, g')
    ensures pick in Waiting(g.rows) && Waiting(g'.rows) == Waiting(g.rows) - {pick}
    ensures forall id | id in Waiting(g'.rows) :: g'.rows[id] == g.rows[id]
    ensures forall id | id in Waiting(g.rows) :: !Before(g.rows[id], g.rows[pick])
  {
    NextNotAfter(g.rows, t.found);
    QualifyWaiting(g, pick, t.body, t.now);
  }

  /** The queue now holds what it held, minus the `done` threats handed out, untouched. */
  ghost predicate Drained(start: map<Uuid, Threat>, rows: map<Uuid, Threat>, done: set<Uuid>) {
    && done <= Waiting(start) && Waiting(rows) == Waiting(start) - done
    && forall id | id in Waiting(rows) :: id in start && rows[id] == start[id]
  }

  lemma DrainOne(start: map<Uuid, Threat>, done: set<Uuid>, g: Register, t: Turn, pick: Uuid, g': Register)
    requires Drained(start, g.rows, done) && TakesTurn(g, t, pick, g')
    ensures pick !in done && Drained(start, g'.rows, done + {pick})
  {
    TurnTakesOne(g, t, pick, g');
  }

  lemma ElementsSnoc(picks: seq<Uuid>, i: nat)
    requires i < |picks| && picks[i] !in Elements(picks[..i])
    ensures Elements(picks[..i + 1]) == Elements(picks[..i]) + {picks[i]}
            && |Elements(picks[..i + 1])| == |Elements(picks[..i])| + 1
  {
    assert picks[..i + 1] == picks[..i] + [picks[i]];
  }

  lemma SessionTurn(states: seq<Register>, turns: seq<Turn>, picks: seq<Uuid>, i: nat)
    requires Session(states, turns, picks) && i < |turns|
    ensures TakesTurn(states[i], turns[i], picks[i], states[i + 1])
  {}

  lemma RemainingStep(states: seq<Register>, turns: seq<Turn>, picks: seq<Uuid>, i: nat, done: set<Uuid>)
    requires Session(states, turns, picks) && i < |turns| && Drained(states[0].rows, states[i].rows, done)
    ensures picks[i] !in done && Drained(states[0].rows, states[i + 1].rows, done + {picks[i]})
  {
    SessionTurn(states, turns, picks, i);
    DrainOne(states[0].rows, done, states[i], turns[i], picks[i], states[i + 1]);
  }

  /** After `i` turns `i` distinct threats have been handed out. */
  lemma {:induction false} Remaining(states: seq<Register>, turns: seq<Turn>, picks: seq<Uuid>, i: nat)
    requires Session(states, turns, picks) && i <= |turns|
    ensures Drained(states[0].rows, states[i].rows, Elements(picks[..i])) && |Elements(picks[..i])| == i
  {
    if i > 0 {
      var j := i - 1;
      Remaining(states, turns, picks, j);
      RemainingStep(states, turns, picks, j, Elements(picks[..j]));
      ElementsSnoc(picks, j);
    }
  }

  /** Turn `i` hands out the least of what is left of the initial queue. */
  lemma PickIsLeastLeft(states: seq<Register>, turns: seq<Turn>, picks: seq<Uuid>, i: nat, start: map<Uuid, Threat>,
                        left: set<Uuid>)
    requires Session(states, turns, picks) && i < |turns|
    requires start == states[0].rows && left == Waiting(start) - Elements(picks[..i])
    ensures picks[i] in left && forall id <- left :: !Before(start[id], start[picks[i]])
  {
    Remaining(states, turns, picks, i);
    SessionTurn(states, turns, picks, i);
    TurnTakesOne(states[i], turns[i], picks[i], states[i + 1]);
  }

  /** Nothing is handed out twice, and nothing overtakes: every pick goes before everything that waited at the start
      and has not been handed out yet, by what the threats were at the start. */
  lemma HandedOutInOrder(states: seq<Register>, turns: seq<Turn>, picks: seq<Uuid>, i: nat)
    requires Session(states, turns, picks) && i < |turns|
    ensures AwaitsReview(states[0].rows, picks[i]) && picks[i] !in picks[..i]
    ensures forall id | AwaitsReview(states[0].rows, id) && id !in picks[..i] ::
              GoesFirst(states[0].rows[picks[i]], states[0].rows[id])
  {
    var start := states[0].rows;
    PickIsLeastLeft(states, turns, picks, i, start, Waiting(start) - Elements(picks[..i]));
    forall id | AwaitsReview(start, id) && id !in picks[..i] ensures GoesFirst(start[picks[i]], start[id]) {
      NotAfterMeans(start[picks[i]], start[id]);
    }
  }

  /** A session ends, with `next` answering None, after exactly as many turns as there were unqualified
      threats; by then each of them has been handed out. */
  lemma DrainsExactly(states: seq<Register>, turns: seq<Turn>, picks: seq<Uuid>, active: seq<Uuid>, found: seq<Uuid>)
    requires Session(states, turns, picks)
    requires Answers(active, ActiveRows(states[0].rows)) && Answers(found, Waiting(states[|turns|].rows))
    ensures |turns| <= ProgressOf(states[0].rows, active).unqualified
    ensures Next(states[|turns|].rows, found) == None <==> |turns| == ProgressOf(states[0].rows, active).unqualified
    ensures Next(states[|turns|].rows, found) == None ==> Elements(picks) == Waiting(states[0].rows)
  {
    var n := |turns|;
    var initial, taken := Waiting(states[0].rows), Elements(picks);
    assert picks[..n] == picks;
    Remaining(states, turns, picks, n);
    UnstampedCount(states[0].rows, active, initial);
    NextNotAfter(states[n].rows, found);
    SubsetCard(taken, initial);
    assert initial - taken == {} <==> taken == initial;
  }

  /** Once confirmed or dismissed, a threat never waits again in any continuation of the run. */
  lemma NeverQueuedAgain(d: Digits, catalog: seq<CatalogEntry>, states: seq<Register>, requests: seq<Request>,
                         i: nat, j: nat)
    requires Run(d, catalog, states, requests) && i < |requests| && i < j < |states|
    requires requests[i].QualifyOne? && requests[i].qualify.action != Defer && Keyed(states[i])
            && requests[i].id in states[i].rows
    ensures requests[i].id !in Waiting(states[j].rows)
  {
    RunStep(d, catalog, states, requests, i);
    var r := requests[i];
    assert QualifiedRow(states[i].rows[r.id], r.qualify, r.now).qualifiedAt == Some(r.now);
    StampedForGood(d, catalog, states, requests, r.id, i + 1, j);
  }
}
