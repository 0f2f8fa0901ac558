/** What holds after any number of editor requests, in custom views and in the root diagram. */
module EditorRuns {
  import opened Wrappers
  import opened BoundaryForest
  import opened DfdGraph
  import Geometry
  import opened GraphOps
  import opened GraphTables
  import opened EditorRefinement
  import opened BulkSave

  datatype Request = Edit(op: Op) | Save(data: Payload, mint: nat -> Uuid)

  /** The stored graph after a request; a refused one leaves it alone. */
  ghost function Answer(mode: Mode, g: Graph, r: Request): Graph {
    match r
    case Edit(op) => if Apply(mode, g, op).Ok? then Apply(mode, g, op).value else g
    case Save(d, mint) =>
      if WellFormed(DraftGraph(d, mint)) then
        MembersKnownIfResolve(d, mint);
        Materialized(d, mint)
      else g
  }

  ghost function Run(mode: Mode, g: Graph, rs: seq<Request>): Graph
    decreases |rs|
  {
    if rs == [] then g else Run(mode, Answer(mode, g, rs[0]), rs[1..])
  }

  // ---- Boundaries stay a forest, whatever the mix of requests ----

  ghost predicate Closed(m: ParentMap) {
    forall id | id in m :: m[id].Some? ==> m[id].value in m
  }

  /** Every parent chain ends; in the root diagram every parent also exists. */
  ghost predicate ForestMap(mode: Mode, m: ParentMap) {
    Acyclic(m) && (mode == Root ==> Closed(m))
  }

  ghost predicate Forest(mode: Mode, bs: seq<Boundary>) {
    ForestMap(mode, Parents(bs))
  }

  lemma SyncParents(mode: Mode, bs: seq<Boundary>, id: Uuid, current: Option<Uuid>, home: Option<Uuid>)
    ensures Parents(Sync(mode, bs, id, current, home)) == Parents(bs)
  {
    SameRecords(bs, Sync(mode, bs, id, current, home));
  }

  lemma {:induction false} MoveAllParents(mode: Mode, g: Graph, ids: seq<Uuid>, home: Option<Uuid>)
    requires forall id <- ids :: id in NodeIds(g.nodes)
    ensures Parents(MoveAll(mode, g, ids, home).boundaries) == Parents(g.boundaries)
    decreases |ids|
  {
    if ids != [] {
      var i := FindNode(g.nodes, ids[0]).value;
      SyncParents(mode, g.boundaries, g.nodes[i].id, g.nodes[i].home, home);
      MoveAllParents(mode, Move(mode, g, i, home), ids[1..], home);
    }
  }

  /** The first record with an id, as a value. */
  ghost function First(bs: seq<Boundary>, id: Uuid): Option<Boundary> {
    if bs == [] then None else if bs[0].id == id then Some(bs[0]) else First(bs[1..], id)
  }

  lemma {:induction false} FoundIsFirst(bs: seq<Boundary>, id: Uuid)
    ensures id in BoundaryIds(bs) <==> First(bs, id).Some?
    ensures id in BoundaryIds(bs) ==> bs[FindBoundary(bs, id).value] == First(bs, id).value
  {
    if bs != [] && bs[0].id != id {
      FoundIsFirst(bs[1..], id);
      assert FindBoundary(bs, id).Some? <==> FindBoundary(bs[1..], id).Some?;
    }
  }

  lemma ParentIsFirst(bs: seq<Boundary>, id: Uuid)
    ensures id in Parents(bs) <==> First(bs, id).Some?
    ensures id in Parents(bs) ==> Parents(bs)[id] == First(bs, id).value.parent
  {
    FoundIsFirst(bs, id);
  }

  lemma {:induction false} FirstInConcat(bs: seq<Boundary>, b: Boundary, id: Uuid)
    ensures First(bs + [b], id) == if First(bs, id).Some? then First(bs, id) else if b.id == id then Some(b) else None
  {
    if bs == [] {
      assert bs + [b] == [b];
    } else {
      FirstInConcat(bs[1..], b, id);
      assert (bs + [b])[1..] == bs[1..] + [b];
    }
  }

  lemma {:induction false} FirstAfterDrop(bs: seq<Boundary>, id: Uuid, x: Uuid)
    ensures First(WithoutBoundary(bs, id), x) == if x == id then None else First(bs, x)
  {
    if bs != [] {
      var rest := WithoutBoundary(bs[1..], id);
      FirstAfterDrop(bs[1..], id, x);
      if bs[0].id != id {
        assert WithoutBoundary(bs, id) == [bs[0]] + rest;
        assert ([bs[0]] + rest)[1..] == rest;
      } else {
        assert WithoutBoundary(bs, id) == [] + rest == rest;
      }
    }
  }

  /** Two parent maps agree on one id. */
  predicate AgreeAt(m: ParentMap, m': ParentMap, x: Uuid) {
    (x in m <==> x in m') && (x in m ==> m[x] == m'[x])
  }

  lemma SameMap(m: ParentMap, m': ParentMap)
    requires forall x :: AgreeAt(m, m', x)
    ensures m == m'
  {
    forall x ensures (x in m <==> x in m') && (x in m ==> m[x] == m'[x]) {
      assert AgreeAt(m, m', x);
    }
  }

  lemma AppendedParent(bs: seq<Boundary>, b: Boundary, m: ParentMap, x: Uuid)
    requires m == if b.id in BoundaryIds(bs) then Parents(bs) else Parents(bs)[b.id := b.parent]
    ensures x in Parents(bs + [b]) <==> x in m
    ensures x in m ==> m[x] == Parents(bs + [b])[x]
  {
    ParentIsFirst(bs, x);
    ParentIsFirst(bs + [b], x);
    FirstInConcat(bs, b, x);
  }

  lemma AppendedParents(bs: seq<Boundary>, b: Boundary)
    ensures Parents(bs + [b]) == if b.id in BoundaryIds(bs) then Parents(bs) else Parents(bs)[b.id := b.parent]
  {
    var m, m' := if b.id in BoundaryIds(bs) then Parents(bs) else Parents(bs)[b.id := b.parent], Parents(bs + [b]);
    forall x ensures AgreeAt(m, m', x) {
      AppendedParent(bs, b, m, x);
    }
    SameMap(m, m');
  }

  /** A new record without a parent, or in the root diagram below an existing boundary. */
  lemma NewRecordForest(mode: Mode, m: ParentMap, id: Uuid, parent: Option<Uuid>)
    requires ForestMap(mode, m) && id !in m
    requires parent.Some? ==> mode == Root && parent.value in m
    ensures ForestMap(mode, m[id := parent])
  {
    if parent == None {
      PruneKeepsAcyclic(m[id := parent], m);
    } else {
      NewChildKeepsAcyclic(m, id, parent.value);
    }
  }

  lemma NewBoundaryForest(mode: Mode, g: Graph, id: Uuid, d: BoundaryDraft)
    requires Forest(mode, g.boundaries) && CreateBoundary(mode, g, id, d).Ok?
    ensures Forest(mode, CreateBoundary(mode, g, id, d).value.boundaries)
  {
    var bs, ids := g.boundaries, Dedupe(d.members);
    var b := NewBoundaryRecord(mode, id, d, Positions(g.nodes, ids));
    MoveAllParents(mode, g.(boundaries := bs + [b]), ids, Some(id));
    AppendedParents(bs, b);
    if id !in BoundaryIds(bs) {
      NewRecordForest(mode, Parents(bs), id, b.parent);
    }
  }

  lemma DroppedParent(bs: seq<Boundary>, id: Uuid, x: Uuid)
    ensures x in Parents(WithoutBoundary(bs, id)) <==> x in Parents(bs) && x != id
    ensures x in Parents(WithoutBoundary(bs, id)) ==> Parents(WithoutBoundary(bs, id))[x] == Parents(bs)[x]
  {
    ParentIsFirst(bs, x);
    ParentIsFirst(WithoutBoundary(bs, id), x);
    FirstAfterDrop(bs, id, x);
  }

  lemma DroppedParents(bs: seq<Boundary>, id: Uuid)
    ensures Parents(WithoutBoundary(bs, id)) == Parents(bs) - {id}
  {
    var m, m' := Parents(bs) - {id}, Parents(WithoutBoundary(bs, id));
    forall x ensures AgreeAt(m, m', x) {
      DroppedParent(bs, id, x);
    }
    SameMap(m, m');
  }

  lemma {:induction false} FirstAfterClear(bs: seq<Boundary>, id: Uuid, x: Uuid)
    ensures First(ClearParent(bs, id), x).Some? <==> First(bs, x).Some?
    ensures First(bs, x).Some? ==>
              First(ClearParent(bs, id), x).value.parent
              == if First(bs, x).value.parent == Some(id) then None else First(bs, x).value.parent
  {
    if bs != [] {
      FirstAfterClear(bs[1..], id, x);
      assert ClearParent(bs, id)[1..] == ClearParent(bs[1..], id);
    }
  }

  lemma ClearedParent(bs: seq<Boundary>, id: Uuid, x: Uuid)
    ensures x in Parents(ClearParent(bs, id)) <==> x in Parents(bs)
    ensures x in Parents(bs) ==>
              Parents(ClearParent(bs, id))[x] == if Parents(bs)[x] == Some(id) then None else Parents(bs)[x]
  {
    ParentIsFirst(bs, x);
    ParentIsFirst(ClearParent(bs, id), x);
    FirstAfterClear(bs, id, x);
  }

  lemma ClearedParents(bs: seq<Boundary>, id: Uuid)
    ensures Parents(ClearParent(bs, id)) == ClearLinks(Parents(bs), id)
  {
    var m, m' := ClearLinks(Parents(bs), id), Parents(ClearParent(bs, id));
    forall x ensures AgreeAt(m, m', x) {
      ClearedParent(bs, id, x);
    }
    SameMap(m, m');
  }

  ghost function ClearLinks(m: ParentMap, id: Uuid): ParentMap {
    map x | x in m :: if m[x] == Some(id) then None else m[x]
  }

  lemma DroppedForest(mode: Mode, m: ParentMap, id: Uuid)
    requires ForestMap(mode, m)
    ensures mode == View ==> ForestMap(mode, m - {id})
    ensures mode == Root ==> ForestMap(mode, ClearLinks(m - {id}, id))
  {
    PruneKeepsAcyclic(m - {id}, m);
    PruneKeepsAcyclic(ClearLinks(m - {id}, id), m);
  }

  lemma RemainingForest(mode: Mode, bs: seq<Boundary>, id: Uuid)
    requires Forest(mode, bs)
    ensures Forest(mode, Remaining(mode, bs, id))
  {
    DroppedForest(mode, Parents(bs), id);
    DroppedParents(bs, id);
    ClearedParents(WithoutBoundary(bs, id), id);
  }

  lemma DropBoundaryForest(mode: Mode, g: Graph, id: Uuid)
    requires Forest(mode, g.boundaries) && DeleteBoundary(mode, g, id).Ok?
    ensures Forest(mode, DeleteBoundary(mode, g, id).value.boundaries)
  {
    RemainingForest(mode, g.boundaries, id);
  }

  lemma SyncForest(mode: Mode, bs: seq<Boundary>, id: Uuid, current: Option<Uuid>, home: Option<Uuid>)
    requires Forest(mode, bs)
    ensures Forest(mode, Sync(mode, bs, id, current, home))
  {
    SyncParents(mode, bs, id, current, home);
  }

  lemma EditNodeForest(mode: Mode, g: Graph, id: Uuid, p: NodePatch)
    requires Forest(mode, g.boundaries) && UpdateNode(mode, g, id, p).Ok?
    ensures Forest(mode, UpdateNode(mode, g, id, p).value.boundaries)
  {
    var i := FindNode(g.nodes, id).value;
    if p.home.Some? {
      SyncForest(mode, g.boundaries, id, g.nodes[i].home, p.home.value);
    }
  }

  lemma NewNodeForest(mode: Mode, g: Graph, n: Node, home: Option<Uuid>)
    requires Forest(mode, g.boundaries) && CreateNode(mode, g, n, home).Ok?
    ensures Forest(mode, CreateNode(mode, g, n, home).value.boundaries)
  {
    SyncForest(mode, g.boundaries, n.id, None, home);
  }

  lemma QuickForest(mode: Mode, g: Graph, origin: Uuid, fromOrigin: bool, n: Node, home: Option<Uuid>, e: Edge)
    requires Forest(mode, g.boundaries) && QuickAdd(mode, g, origin, fromOrigin, n, home, e).Ok?
    ensures Forest(mode, QuickAdd(mode, g, origin, fromOrigin, n, home, e).value.boundaries)
  {
    SyncForest(mode, g.boundaries, n.id, None, home);
  }

  lemma DropNodeForest(mode: Mode, g: Graph, id: Uuid)
    requires Forest(mode, g.boundaries) && DeleteNode(mode, g, id).Ok?
    ensures Forest(mode, DeleteNode(mode, g, id).value.boundaries)
  {
    SyncForest(mode, g.boundaries, id, g.nodes[FindNode(g.nodes, id).value].home, None);
  }

  lemma EditForest(mode: Mode, g: Graph, op: Op)
    requires Forest(mode, g.boundaries) && Apply(mode, g, op).Ok?
    ensures Forest(mode, Apply(mode, g, op).value.boundaries)
  {
    match op
    case NewNode(n, home) => NewNodeForest(mode, g, n, home);
    case QuickNode(origin, fromOrigin, n, home, e) => QuickForest(mode, g, origin, fromOrigin, n, home, e);
    case EditNode(id, p) => EditNodeForest(mode, g, id, p);
    case DropNode(id) => DropNodeForest(mode, g, id);
    case NewEdge(e, elsewhere) => assert CreateEdge(mode, g, e, elsewhere).value.boundaries == g.boundaries;
    case EditEdge(id, caption, props) =>
      assert UpdateEdge(mode, g, id, caption, props).value.boundaries == g.boundaries;
    case DropEdge(id) => assert DeleteEdge(g, id).value.boundaries == g.boundaries;
    case NewBoundary(id, d) => NewBoundaryForest(mode, g, id, d);
    case DropBoundary(id) => DropBoundaryForest(mode, g, id);
  }

  /** No mix of edits and bulk saves ever closes a cycle of parents - not even with reused ids, and
      in custom views despite parents left dangling by a deletion. */
  lemma {:induction false} RunKeepsForest(mode: Mode, g: Graph, rs: seq<Request>)
    requires Forest(mode, g.boundaries)
    ensures Forest(mode, Run(mode, g, rs).boundaries)
    decreases |rs|
  {
    if rs != [] {
      match rs[0] {
        case Edit(op) =>
          if Apply(mode, g, op).Ok? {
            EditForest(mode, g, op);
          }
        case Save(d, mint) =>
          if WellFormed(DraftGraph(d, mint)) {
            MaterializedWellFormed(d, mint);
          }
      }
      RunKeepsForest(mode, Answer(mode, g, rs[0]), rs[1..]);
    }
  }

  // ---- Linked runs refine table runs ----

  /** Edits with fresh ids, and bulk saves whose payload tells one membership story. */
  ghost predicate Consistent(mode: Mode, g: Graph, r: Request) {
    match r
    case Edit(op) => Admissible(mode, g, op)
    case Save(d, mint) => WellFormed(DraftGraph(d, mint)) ==> TwoWay(DraftGraph(d, mint))
  }

  ghost predicate ConsistentRun(mode: Mode, g: Graph, rs: seq<Request>)
    decreases |rs|
  {
    rs != [] ==> Consistent(mode, g, rs[0]) && ConsistentRun(mode, Answer(mode, g, rs[0]), rs[1..])
  }

  ghost function TableAnswer(mode: Mode, t: Tables, r: Request): Tables {
    match r
    case Edit(op) => if TableApply(mode, t, op).Ok? then TableApply(mode, t, op).value else t
    case Save(d, mint) =>
      if WellFormed(DraftGraph(d, mint)) then
        MembersKnownIfResolve(d, mint);
        TablesOf(Materialized(d, mint))
      else t
  }

  ghost function TableRun(mode: Mode, t: Tables, rs: seq<Request>): Tables
    decreases |rs|
  {
    if rs == [] then t else TableRun(mode, TableAnswer(mode, t, rs[0]), rs[1..])
  }

  /** From any linked graph - the empty workspace, a fresh decomposition - every run of consistent
      requests keeps the links in step and computes what the plain tables compute. */
  lemma {:induction false} LinkedRunRefinesTables(mode: Mode, g: Graph, rs: seq<Request>)
    requires Linked(g) && ConsistentRun(mode, g, rs)
    ensures Linked(Run(mode, g, rs))
    ensures TablesOf(Run(mode, g, rs)) == TableRun(mode, TablesOf(g), rs)
    decreases |rs|
  {
    if rs != [] {
      match rs[0] {
        case Edit(op) => ApplySimulates(mode, g, op);
        case Save(d, mint) =>
          if WellFormed(DraftGraph(d, mint)) {
            SavedLinkedIff(d, mint);
          }
      }
      LinkedRunRefinesTables(mode, Answer(mode, g, rs[0]), rs[1..]);
    }
  }

  // ---- What a single request needs, exactly ----

  lemma SameButMembersTrans(a: seq<Boundary>, b: seq<Boundary>, c: seq<Boundary>)
    requires SameButMembers(a, b) && SameButMembers(b, c)
    ensures SameButMembers(a, c)
  {
    forall i | 0 <= i < |a| ensures c[i].(members := a[i].members) == a[i] {
      assert b[i].(members := a[i].members) == a[i] && c[i].(members := b[i].members) == b[i];
    }
  }

  lemma {:induction false} MoveAllRecords(mode: Mode, g: Graph, ids: seq<Uuid>, home: Option<Uuid>)
    requires forall id <- ids :: id in NodeIds(g.nodes)
    ensures SameButMembers(g.boundaries, MoveAll(mode, g, ids, home).boundaries)
    decreases |ids|
  {
    if ids != [] {
      var next := Move(mode, g, FindNode(g.nodes, ids[0]).value, home);
      MoveAllRecords(mode, next, ids[1..], home);
      SameButMembersTrans(g.boundaries, next.boundaries, MoveAll(mode, g, ids, home).boundaries);
    }
  }

  /** A successful edit keeps the graph linked if and only if the ids it introduced in a view were fresh -
      which nothing in the request path checks - and a root edge did not reach into another model. */
  lemma EditKeepsLinkedIff(mode: Mode, g: Graph, op: Op)
    requires Linked(g) && Apply(mode, g, op).Ok?
    ensures Linked(Apply(mode, g, op).value) <==> Admissible(mode, g, op)
  {
    var g' := Apply(mode, g, op).value;
    if Admissible(mode, g, op) {
      ApplySimulates(mode, g, op);
    } else {
      match op {
        case NewNode(n, home) => ReusedNodeId(g.nodes, n.(home := home));
        case NewEdge(e, _) =>
          if mode == View { ReusedEdgeId(g.edges, e); } else { assert e in g'.edges; }
        case QuickNode(_, _, n, home, e) =>
          if mode == View && n.id in NodeIds(g.nodes) {
            ReusedNodeId(g.nodes, n.(home := home));
          } else {
            ReusedEdgeId(g.edges, g'.edges[|g.edges|]);
          }
        case NewBoundary(id, d) =>
          var b := NewBoundaryRecord(View, id, d, Positions(g.nodes, Dedupe(d.members)));
          ReusedBoundaryId(g.boundaries, b);
          MoveAllRecords(View, g.(boundaries := g.boundaries + [b]), Dedupe(d.members), Some(id));
          SameButMembersIds(g.boundaries + [b], g'.boundaries);
          SameIds(g.boundaries + [b], g'.boundaries);
      }
    }
  }

  const SAMPLE_NODE := Node(1, "process", "n", 0.0, 0.0, None, None, None, Fields(map[]))

  /** Two creations with the same supplied id: the empty workspace accepts both. */
  lemma ReusedIdBreaksLinks()
    ensures var once := Apply(View, Graph([], [], []), NewNode(SAMPLE_NODE, None));
            once.Ok? && Linked(once.value)
            && var twice := Apply(View, once.value, NewNode(SAMPLE_NODE, None));
               twice.Ok? && !Linked(twice.value)
  {
    var empty := Graph([], [], []);
    EditKeepsLinkedIff(View, empty, NewNode(SAMPLE_NODE, None));
    var once := Apply(View, empty, NewNode(SAMPLE_NODE, None)).value;
    assert once.nodes == [SAMPLE_NODE] && SAMPLE_NODE in once.nodes;
    EditKeepsLinkedIff(View, once, NewNode(SAMPLE_NODE, None));
  }

  /** A root edge to a node of another model is accepted, and its end is not in this diagram. */
  lemma RootEdgeCanLeaveModel()
    ensures var g, e := Graph([SAMPLE_NODE], [], []), Edge(2, 1, 3, "", Fields(map[]));
            Linked(g) && Apply(Root, g, NewEdge(e, {3})).Ok? && !Linked(Apply(Root, g, NewEdge(e, {3})).value)
  {
    var g, e := Graph([SAMPLE_NODE], [], []), Edge(2, 1, 3, "", Fields(map[]));
    assert SAMPLE_NODE in g.nodes && 1 in NodeIds(g.nodes);
    assert 3 !in NodeIds(g.nodes);
    EditKeepsLinkedIff(Root, g, NewEdge(e, {3}));
  }

  /** A new boundary is stored with the kind and parent the client asked for exactly when it is created in the
      root diagram, or when the client asked for neither. */
  lemma BoundaryAsAskedIff(mode: Mode, g: Graph, id: Uuid, d: BoundaryDraft)
    requires CreateBoundary(mode, g, id, d).Ok?
    ensures var bs' := CreateBoundary(mode, g, id, d).value.boundaries;
            |bs'| == |g.boundaries| + 1
            && var b := bs'[|g.boundaries|];
               b.id == id && b.name == d.name
               && (b.kind == d.kind && b.parent == d.parent <==> mode == Root || (d.kind == None && d.parent == None))
  {
    var ids := Dedupe(d.members);
    var b := NewBoundaryRecord(mode, id, d, Positions(g.nodes, ids));
    var start := g.(boundaries := g.boundaries + [b]);
    MoveAllRecords(mode, start, ids, Some(id));
    var b' := CreateBoundary(mode, g, id, d).value.boundaries[|g.boundaries|];
    assert start.boundaries[|g.boundaries|] == b && b'.(members := b.members) == b;
  }

  /** In a view with one boundary, a second one asked for below it is stored without a parent. */
  lemma ViewBoundaryLosesParent(outer: Boundary, inner: BoundaryDraft, id: Uuid)
    requires inner == BoundaryDraft("inner", [], Geometry.NO_RECT, None, Some(outer.id))
    ensures var r := CreateBoundary(View, Graph([], [], [outer]), id, inner);
            r.Ok? && |r.value.boundaries| == 2 && r.value.boundaries[1].parent == None
  {
    assert inner.members == [] && Dedupe(inner.members) == [];
  }

  lemma ReusedNodeId(nodes: seq<Node>, n: Node)
    requires n.id in NodeIds(nodes)
    ensures !UniqueNodes(nodes + [n])
  {
    var i := FindNode(nodes, n.id).value;
    assert (nodes + [n])[i].id == (nodes + [n])[|nodes|].id;
  }

  lemma ReusedEdgeId(edges: seq<Edge>, e: Edge)
    requires e.id in EdgeIds(edges)
    ensures !UniqueEdges(edges + [e])
  {
    var i := FindEdge(edges, e.id).value;
    assert (edges + [e])[i].id == (edges + [e])[|edges|].id;
  }

  lemma ReusedBoundaryId(bs: seq<Boundary>, b: Boundary)
    requires b.id in BoundaryIds(bs)
    ensures !UniqueBoundaries(bs + [b])
  {
    var i := FindBoundary(bs, b.id).value;
    assert (bs + [b])[i].id == (bs + [b])[|bs|].id;
  }
}
