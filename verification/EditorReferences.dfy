/** References in the diagram: what keeps resolving over every run, and what can be left dangling. */
module EditorReferences {
  import opened Wrappers
  import opened BoundaryForest
  import opened DfdGraph
  import Geometry
  import opened Membership
  import opened GraphOps
  import opened GraphTables
  import opened EditorRefinement
  import opened BulkSave
  import opened EditorRuns

  // ---- What a full scan does to the member lists, whatever the ids ----

  lemma ScanListed(bs: seq<Boundary>, id: Uuid, home: Option<Uuid>, k: nat)
    requires k < |bs|
    ensures var b := FullScan(bs, id, home)[k];
            && b.id == bs[k].id
            && forall x <- b.members :: (x in bs[k].members && x != id) || (x == id && home == Some(b.id))
  {
    assert ScanRemove(bs, id)[k].id == bs[k].id;
  }

  /** Every list after a scan names known nodes; without a new home it no longer names `id`. */
  lemma ScanReferences(bs: seq<Boundary>, id: Uuid, home: Option<Uuid>, known: set<Uuid>)
    requires forall b <- bs, x <- b.members :: x in known
    ensures BoundaryIds(FullScan(bs, id, home)) == BoundaryIds(bs)
    ensures forall b <- FullScan(bs, id, home), x <- b.members ::
              (x in known && x != id) || (x == id && home == Some(b.id))
  {
    var bs' := FullScan(bs, id, home);
    SameButMembersIds(bs, bs');
    SameIds(bs, bs');
    forall b' <- bs', x <- b'.members ensures (x in known && x != id) || (x == id && home == Some(b'.id)) {
      var k :| 0 <= k < |bs'| && bs'[k] == b';
      ScanListed(bs, id, home, k);
      assert bs[k] in bs;
    }
  }

  /** In either mode a membership change lists known nodes, and the moved one at its new home. */
  lemma SyncReferences(mode: Mode, bs: seq<Boundary>, id: Uuid, current: Option<Uuid>, home: Option<Uuid>,
                       known: set<Uuid>)
    requires forall b <- bs, x <- b.members :: x in known
    ensures BoundaryIds(Sync(mode, bs, id, current, home)) == BoundaryIds(bs)
    ensures forall b <- Sync(mode, bs, id, current, home), x <- b.members ::
              x in known || (x == id && home == Some(b.id))
  {
    if mode == View {
      ScanReferences(bs, id, home, known);
    } else {
      var bs' := Incremental(bs, id, current, home);
      SameButMembersIds(bs, bs');
      SameIds(bs, bs');
      forall b' <- bs', x <- b'.members ensures x in known || (x == id && home == Some(b'.id)) {
        var k :| 0 <= k < |bs'| && bs'[k] == b';
        assert bs[k] in bs && b'.members == IncrementalMembers(bs[k], id, current, home);
      }
    }
  }

  // ---- What each request does to the references, reused ids or not ----

  lemma AppendedReferences(g: Graph, n: Node, bs': seq<Boundary>)
    requires References(g) && HomeExists(g, n.home) && BoundaryIds(bs') == BoundaryIds(g.boundaries)
    requires forall b <- bs', x <- b.members :: x in NodeIds(g.nodes) + {n.id}
    ensures References(Graph(g.nodes + [n], g.edges, bs'))
  {
    AppendedIds(g.nodes, n);
  }

  lemma ReplacedReferences(g: Graph, i: nat, n: Node, bs': seq<Boundary>)
    requires References(g) && i < |g.nodes| && n.id == g.nodes[i].id && HomeExists(g, n.home)
    requires BoundaryIds(bs') == BoundaryIds(g.boundaries)
    requires forall b <- bs', x <- b.members :: x in NodeIds(g.nodes)
    ensures References(Graph(g.nodes[i := n], g.edges, bs'))
  {
    ReplacedIds(g.nodes, i, n);
    forall m <- g.nodes[i := n] ensures m == n || m in g.nodes {
      var j :| 0 <= j < |g.nodes| && g.nodes[i := n][j] == m;
    }
  }

  lemma MoveReferences(mode: Mode, g: Graph, i: nat, home: Option<Uuid>)
    requires References(g) && i < |g.nodes| && HomeExists(g, home)
    ensures References(Move(mode, g, i, home)) && HomeExists(Move(mode, g, i, home), home)
  {
    var n := g.nodes[i];
    assert n in g.nodes;
    SyncReferences(mode, g.boundaries, n.id, n.home, home, NodeIds(g.nodes));
    ReplacedReferences(g, i, n.(home := home), Sync(mode, g.boundaries, n.id, n.home, home));
  }

  lemma NewNodeReferences(mode: Mode, g: Graph, n: Node, home: Option<Uuid>)
    requires References(g) && CreateNode(mode, g, n, home).Ok?
    ensures References(CreateNode(mode, g, n, home).value)
  {
    SyncReferences(mode, g.boundaries, n.id, None, home, NodeIds(g.nodes));
    AppendedReferences(g, n.(home := home), Sync(mode, g.boundaries, n.id, None, home));
  }

  lemma EditNodeReferences(mode: Mode, g: Graph, id: Uuid, p: NodePatch)
    requires References(g) && UpdateNode(mode, g, id, p).Ok?
    ensures References(UpdateNode(mode, g, id, p).value)
  {
    var i := FindNode(g.nodes, id).value;
    var n := Patched(mode, g.nodes[i], p);
    assert g.nodes[i] in g.nodes;
    ReplacedReferences(g, i, n, g.boundaries);
    if p.home.Some? {
      MoveReferences(mode, g.(nodes := g.nodes[i := n]), i, p.home.value);
    }
  }

  lemma DroppedIds(nodes: seq<Node>, id: Uuid)
    ensures NodeIds(WithoutNode(nodes, id)) == NodeIds(nodes) - {id}
  {
    forall x | x in NodeIds(nodes) && x != id ensures x in NodeIds(WithoutNode(nodes, id)) {
      var n :| n in nodes && n.id == x;
      assert n in WithoutNode(nodes, id);
    }
  }

  /** Dropping a node and its edges leaves no reference dangling exactly when no boundary lists it. */
  lemma DroppedReferences(g: Graph, id: Uuid)
    requires References(g)
    ensures References(Graph(WithoutNode(g.nodes, id), WithoutIncident(g.edges, id), g.boundaries))
            <==> forall b <- g.boundaries :: id !in b.members
  {
    var g' := Graph(WithoutNode(g.nodes, id), WithoutIncident(g.edges, id), g.boundaries);
    DroppedIds(g.nodes, id);
    assert EdgesResolve(g') && HomesResolve(g');
    assert MembersResolve(g') <==> forall b <- g.boundaries :: id !in b.members;
  }

  /** No boundary but the node's own lists it. */
  ghost predicate ListedAtHomeOnly(bs: seq<Boundary>, id: Uuid, home: Option<Uuid>) {
    forall b <- bs | id in b.members :: home == Some(b.id)
  }

  /** Clearing the node's home leaves it unlisted exactly when only its home listed it. */
  lemma ClearedUnlistedIff(bs: seq<Boundary>, id: Uuid, home: Option<Uuid>)
    ensures (forall b <- Incremental(bs, id, home, None) :: id !in b.members) <==> ListedAtHomeOnly(bs, id, home)
  {
    var bs' := Incremental(bs, id, home, None);
    forall k | 0 <= k < |bs| ensures id in bs'[k].members <==> id in bs[k].members && home != Some(bs[k].id) {}
    if forall b <- bs' :: id !in b.members {
      forall b <- bs | id in b.members ensures home == Some(b.id) {
        var k :| 0 <= k < |bs| && bs[k] == b;
        assert bs'[k] in bs';
      }
    }
    if ListedAtHomeOnly(bs, id, home) {
      forall b <- bs' ensures id !in b.members {
        var k :| 0 <= k < |bs'| && bs'[k] == b;
        assert bs[k] in bs;
      }
    }
  }

  /** Deleting a node leaves a reference dangling only in the root diagram, and there exactly when a boundary other
      than its own lists it. */
  lemma DropNodeReferencesIff(mode: Mode, g: Graph, id: Uuid)
    requires References(g) && DeleteNode(mode, g, id).Ok?
    ensures References(DeleteNode(mode, g, id).value) <==>
            mode == View || ListedAtHomeOnly(g.boundaries, id, g.nodes[FindNode(g.nodes, id).value].home)
  {
    var i := FindNode(g.nodes, id).value;
    MoveReferences(mode, g, i, None);
    DroppedReferences(Move(mode, g, i, None), id);
    if mode == View {
      ScanReferences(g.boundaries, id, None, NodeIds(g.nodes));
    } else {
      ClearedUnlistedIff(g.boundaries, id, g.nodes[i].home);
    }
  }

  lemma EdgesReferences(g: Graph, edges': seq<Edge>)
    requires References(g) && forall e <- edges' :: e.source in NodeIds(g.nodes) && e.target in NodeIds(g.nodes)
    ensures References(g.(edges := edges'))
  {}

  lemma EditEdgeReferences(mode: Mode, g: Graph, id: Uuid, caption: Option<Option<string>>, props: Option<Props>)
    requires References(g) && UpdateEdge(mode, g, id, caption, props).Ok?
    ensures References(UpdateEdge(mode, g, id, caption, props).value)
  {
    var i := FindEdge(g.edges, id).value;
    assert g.edges[i] in g.edges;
    EdgesReferences(g, UpdateEdge(mode, g, id, caption, props).value.edges);
  }

  lemma QuickNodeReferences(mode: Mode, g: Graph, origin: Uuid, fromOrigin: bool, n: Node, home: Option<Uuid>, e: Edge)
    requires References(g) && QuickAdd(mode, g, origin, fromOrigin, n, home, e).Ok?
    ensures References(QuickAdd(mode, g, origin, fromOrigin, n, home, e).value)
  {
    NewNodeReferences(mode, g, n, home);
    AppendedIds(g.nodes, n.(home := home));
    EdgesReferences(CreateNode(mode, g, n, home).value, QuickAdd(mode, g, origin, fromOrigin, n, home, e).value.edges);
  }

  lemma {:induction false} MoveAllReferences(mode: Mode, g: Graph, ids: seq<Uuid>, home: Option<Uuid>)
    requires References(g) && HomeExists(g, home) && forall id <- ids :: id in NodeIds(g.nodes)
    ensures References(MoveAll(mode, g, ids, home))
    decreases |ids|
  {
    if ids != [] {
      var i := FindNode(g.nodes, ids[0]).value;
      MoveReferences(mode, g, i, home);
      MoveAllReferences(mode, Move(mode, g, i, home), ids[1..], home);
    }
  }

  lemma EmptyBoundaryReferences(g: Graph, b: Boundary)
    requires References(g) && b.members == []
    ensures References(g.(boundaries := g.boundaries + [b]))
    ensures HomeExists(g.(boundaries := g.boundaries + [b]), Some(b.id))
  {
    assert b in g.boundaries + [b];
    forall c <- g.boundaries ensures c in g.boundaries + [b] {}
  }

  lemma NewBoundaryReferences(mode: Mode, g: Graph, id: Uuid, d: BoundaryDraft)
    requires References(g) && CreateBoundary(mode, g, id, d).Ok?
    ensures References(CreateBoundary(mode, g, id, d).value)
  {
    var ids := Dedupe(d.members);
    var b := NewBoundaryRecord(mode, id, d, Positions(g.nodes, ids));
    EmptyBoundaryReferences(g, b);
    MoveAllReferences(mode, g.(boundaries := g.boundaries + [b]), ids, Some(id));
  }

  lemma WithoutBoundaryIds(bs: seq<Boundary>, id: Uuid)
    ensures BoundaryIds(WithoutBoundary(bs, id)) == BoundaryIds(bs) - {id}
  {
    forall x | x in BoundaryIds(bs) && x != id ensures x in BoundaryIds(WithoutBoundary(bs, id)) {
      var b :| b in bs && b.id == x;
      assert b in WithoutBoundary(bs, id);
    }
  }

  lemma ClearedHomes(nodes: seq<Node>, id: Uuid, known: set<Uuid>)
    requires forall n <- nodes :: n.home.Some? ==> n.home.value in known
    ensures NodeIds(ClearHome(nodes, id)) == NodeIds(nodes)
    ensures forall n <- ClearHome(nodes, id) :: n.home.Some? ==> n.home.value in known - {id}
  {
    ClearHomeIds(nodes, id);
    var nodes' := ClearHome(nodes, id);
    forall m <- nodes' ensures m.home.Some? ==> m.home.value in known - {id} {
      var j :| 0 <= j < |nodes'| && nodes'[j] == m;
      assert nodes[j] in nodes;
    }
  }

  lemma UnparentedReferences(bs: seq<Boundary>, id: Uuid, known: set<Uuid>)
    requires forall b <- bs, x <- b.members :: x in known
    ensures BoundaryIds(ClearParent(bs, id)) == BoundaryIds(bs)
    ensures forall b <- ClearParent(bs, id), x <- b.members :: x in known
  {
    var bs' := ClearParent(bs, id);
    SameIds(bs, bs');
    forall b' <- bs', x <- b'.members ensures x in known {
      var k :| 0 <= k < |bs'| && bs'[k] == b';
      assert bs[k] in bs;
    }
  }

  lemma RemainingReferences(mode: Mode, bs: seq<Boundary>, id: Uuid, known: set<Uuid>)
    requires forall b <- bs, x <- b.members :: x in known
    ensures BoundaryIds(Remaining(mode, bs, id)) == BoundaryIds(bs) - {id}
    ensures forall b <- Remaining(mode, bs, id), x <- b.members :: x in known
  {
    WithoutBoundaryIds(bs, id);
    UnparentedReferences(WithoutBoundary(bs, id), id, known);
  }

  lemma DropBoundaryReferences(mode: Mode, g: Graph, id: Uuid)
    requires References(g) && DeleteBoundary(mode, g, id).Ok?
    ensures References(DeleteBoundary(mode, g, id).value)
  {
    RemainingReferences(mode, g.boundaries, id, NodeIds(g.nodes));
    ClearedHomes(g.nodes, id, BoundaryIds(g.boundaries));
  }

  lemma NewEdgeReferencesIff(mode: Mode, g: Graph, e: Edge, elsewhere: set<Uuid>)
    requires References(g) && CreateEdge(mode, g, e, elsewhere).Ok?
    ensures References(CreateEdge(mode, g, e, elsewhere).value) <==>
            mode == View || (!Foreign(g, e.source, elsewhere) && !Foreign(g, e.target, elsewhere))
  {
    assert e in CreateEdge(mode, g, e, elsewhere).value.edges;
  }

  /** The two root requests that need care: a deletion of a node listed away from home, an edge that leaves the
      model. */
  ghost predicate Careful(mode: Mode, g: Graph, op: Op) {
    match op
    case DropNode(id) =>
      id in NodeIds(g.nodes) && mode == Root ==>
        ListedAtHomeOnly(g.boundaries, id, g.nodes[FindNode(g.nodes, id).value].home)
    case NewEdge(e, elsewhere) => mode == Root ==> !Foreign(g, e.source, elsewhere) && !Foreign(g, e.target, elsewhere)
    case _ => true
  }

  /** In either mode a successful edit keeps every reference resolved if and only if it is not a root deletion of a
      node some other boundary lists, nor a root edge to another model's node. */
  lemma EditKeepsReferencesIff(mode: Mode, g: Graph, op: Op)
    requires References(g) && Apply(mode, g, op).Ok?
    ensures References(Apply(mode, g, op).value) <==> Careful(mode, g, op)
  {
    match op
    case NewNode(n, home) => NewNodeReferences(mode, g, n, home);
    case EditNode(id, p) => EditNodeReferences(mode, g, id, p);
    case DropNode(id) => DropNodeReferencesIff(mode, g, id);
    case NewEdge(e, elsewhere) => NewEdgeReferencesIff(mode, g, e, elsewhere);
    case EditEdge(id, caption, props) => EditEdgeReferences(mode, g, id, caption, props);
    case DropEdge(id) => EdgesReferences(g, WithoutEdge(g.edges, id));
    case QuickNode(origin, fromOrigin, n, home, e) => QuickNodeReferences(mode, g, origin, fromOrigin, n, home, e);
    case NewBoundary(id, d) => NewBoundaryReferences(mode, g, id, d);
    case DropBoundary(id) => DropBoundaryReferences(mode, g, id);
  }

  // ---- Over runs ----

  ghost predicate CarefulRun(mode: Mode, g: Graph, rs: seq<Request>)
    decreases |rs|
  {
    rs != [] ==> (rs[0].Edit? ==> Careful(mode, g, rs[0].op)) && CarefulRun(mode, Answer(mode, g, rs[0]), rs[1..])
  }

  /** Over every run whose edits are careful, with inconsistent bulk saves and deletions in any order, every edge
      ends at a node, every home is a boundary and every listed member is a node. */
  lemma {:induction false} RunKeepsReferences(mode: Mode, g: Graph, rs: seq<Request>)
    requires References(g) && CarefulRun(mode, g, rs)
    ensures References(Run(mode, g, rs))
    decreases |rs|
  {
    if rs != [] {
      match rs[0] {
        case Edit(op) =>
          if Apply(mode, g, op).Ok? {
            EditKeepsReferencesIff(mode, g, op);
          }
        case Save(d, mint) =>
          if WellFormed(DraftGraph(d, mint)) {
            MaterializedWellFormed(d, mint);
          }
      }
      RunKeepsReferences(mode, Answer(mode, g, rs[0]), rs[1..]);
    }
  }

  lemma {:induction false} ViewRunsAreCareful(g: Graph, rs: seq<Request>)
    ensures CarefulRun(View, g, rs)
    decreases |rs|
  {
    if rs != [] {
      ViewRunsAreCareful(Answer(View, g, rs[0]), rs[1..]);
    }
  }

  /** A custom view needs no care: the same holds over every run, with reused ids and all. */
  lemma ViewRunKeepsReferences(g: Graph, rs: seq<Request>)
    requires References(g)
    ensures References(Run(View, g, rs))
  {
    ViewRunsAreCareful(g, rs);
    RunKeepsReferences(View, g, rs);
  }

  // ---- With fresh ids the records stay unique, too ----

  lemma MoveUnique(g: Graph, i: nat, home: Option<Uuid>)
    requires UniqueIds(g) && i < |g.nodes|
    ensures UniqueIds(Move(View, g, i, home))
  {
    ReplacedIds(g.nodes, i, g.nodes[i].(home := home));
    SameButMembersIds(g.boundaries, Move(View, g, i, home).boundaries);
    SameIds(g.boundaries, Move(View, g, i, home).boundaries);
  }

  lemma NewNodeUnique(g: Graph, n: Node, home: Option<Uuid>)
    requires UniqueIds(g) && n.id !in NodeIds(g.nodes) && CreateNode(View, g, n, home).Ok?
    ensures UniqueIds(CreateNode(View, g, n, home).value)
  {
    NodeAppended(g.nodes, n.(home := home));
    SameButMembersIds(g.boundaries, FullScan(g.boundaries, n.id, home));
    SameIds(g.boundaries, FullScan(g.boundaries, n.id, home));
  }

  lemma EditNodeUnique(g: Graph, id: Uuid, p: NodePatch)
    requires UniqueIds(g) && UpdateNode(View, g, id, p).Ok?
    ensures UniqueIds(UpdateNode(View, g, id, p).value)
  {
    var i := FindNode(g.nodes, id).value;
    var n := Patched(View, g.nodes[i], p);
    ReplacedIds(g.nodes, i, n);
    if p.home.Some? {
      MoveUnique(g.(nodes := g.nodes[i := n]), i, p.home.value);
    }
  }

  lemma EditEdgeUnique(g: Graph, id: Uuid, caption: Option<Option<string>>, props: Option<Props>)
    requires UniqueIds(g) && UpdateEdge(View, g, id, caption, props).Ok?
    ensures UniqueIds(UpdateEdge(View, g, id, caption, props).value)
  {
    var i := FindEdge(g.edges, id).value;
    EdgeReplaced(g.edges, i, UpdateEdge(View, g, id, caption, props).value.edges[i]);
  }

  lemma QuickNodeUnique(g: Graph, origin: Uuid, fromOrigin: bool, n: Node, home: Option<Uuid>, e: Edge)
    requires UniqueIds(g) && n.id !in NodeIds(g.nodes) && e.id !in EdgeIds(g.edges)
    requires QuickAdd(View, g, origin, fromOrigin, n, home, e).Ok?
    ensures UniqueIds(QuickAdd(View, g, origin, fromOrigin, n, home, e).value)
  {
    NewNodeUnique(g, n, home);
    var link := QuickLink(origin, fromOrigin, n.id, e);
    EdgeAppended(g.edges, link);
  }

  lemma {:induction false} MoveAllUnique(g: Graph, ids: seq<Uuid>, home: Option<Uuid>)
    requires UniqueIds(g) && forall id <- ids :: id in NodeIds(g.nodes)
    ensures UniqueIds(MoveAll(View, g, ids, home))
    decreases |ids|
  {
    if ids != [] {
      var i := FindNode(g.nodes, ids[0]).value;
      MoveUnique(g, i, home);
      MoveAllUnique(Move(View, g, i, home), ids[1..], home);
    }
  }

  lemma NewBoundaryUnique(g: Graph, id: Uuid, d: BoundaryDraft)
    requires UniqueIds(g) && id !in BoundaryIds(g.boundaries) && CreateBoundary(View, g, id, d).Ok?
    ensures UniqueIds(CreateBoundary(View, g, id, d).value)
  {
    var ids := Dedupe(d.members);
    var b := NewBoundaryRecord(View, id, d, Positions(g.nodes, ids));
    BoundaryAppended(g.boundaries, b);
    MoveAllUnique(g.(boundaries := g.boundaries + [b]), ids, Some(id));
  }

  lemma DropBoundaryUnique(g: Graph, id: Uuid)
    requires UniqueIds(g) && DeleteBoundary(View, g, id).Ok?
    ensures UniqueIds(DeleteBoundary(View, g, id).value)
  {
    ClearHomeIds(g.nodes, id);
  }

  lemma EditKeepsUnique(g: Graph, op: Op)
    requires UniqueIds(g) && Admissible(View, g, op) && Apply(View, g, op).Ok?
    ensures UniqueIds(Apply(View, g, op).value)
  {
    match op
    case NewNode(n, home) => NewNodeUnique(g, n, home);
    case EditNode(id, p) => EditNodeUnique(g, id, p);
    case DropNode(id) => MoveUnique(g, FindNode(g.nodes, id).value, None);
    case NewEdge(e, _) => EdgeAppended(g.edges, e);
    case EditEdge(id, caption, props) => EditEdgeUnique(g, id, caption, props);
    case DropEdge(_) =>
    case QuickNode(origin, fromOrigin, n, home, e) => QuickNodeUnique(g, origin, fromOrigin, n, home, e);
    case NewBoundary(id, d) => NewBoundaryUnique(g, id, d);
    case DropBoundary(id) => DropBoundaryUnique(g, id);
  }

  ghost predicate FreshRun(g: Graph, rs: seq<Request>)
    decreases |rs|
  {
    rs != [] ==> (rs[0].Edit? ==> Admissible(View, g, rs[0].op)) && FreshRun(Answer(View, g, rs[0]), rs[1..])
  }

  /** With fresh ids every record also keeps an id of its own. */
  lemma {:induction false} FreshRunStaysUnique(g: Graph, rs: seq<Request>)
    requires UniqueIds(g) && FreshRun(g, rs)
    ensures UniqueIds(Run(View, g, rs))
    decreases |rs|
  {
    if rs != [] {
      match rs[0] {
        case Edit(op) =>
          if Apply(View, g, op).Ok? {
            EditKeepsUnique(g, op);
          }
        case Save(d, mint) =>
          if WellFormed(DraftGraph(d, mint)) {
            MaterializedWellFormed(d, mint);
          }
      }
      FreshRunStaysUnique(Answer(View, g, rs[0]), rs[1..]);
    }
  }

  lemma ViewRunResolves(g: Graph, rs: seq<Request>)
    requires Resolved(g) && FreshRun(g, rs)
    ensures Resolved(Run(View, g, rs))
  {
    ViewRunKeepsReferences(g, rs);
    FreshRunStaysUnique(g, rs);
  }

  // ---- A root deletion that leaves an id behind ----

  lemma TinyWellFormed(n: Node, b: Boundary)
    requires n.home == None && b.members == [n.id] && b.parent == None
    ensures WellFormed(Graph([n], [], [b]))
  {
    var m := Parents([b]);
    assert n in [n] && b in [b];
    assert n.id in NodeIds([n]);
    forall x | x in m ensures Ends(m, x) {
      assert m[x] == None;
      assert Ancestor(m, x, 1) == None;
    }
  }

  lemma TinyDangles(n: Node, b: Boundary)
    requires n.home == None && b.members == [n.id] && b.parent == None
    ensures var r := DeleteNode(Root, Graph([n], [], [b]), n.id); r.Ok? && !MembersResolve(r.value)
  {
    var g := Graph([n], [], [b]);
    TinyWellFormed(n, b);
    assert n in g.nodes && n.id in NodeIds(g.nodes);
    assert g.boundaries[0] in g.boundaries;
    DropNodeReferencesIff(Root, g, n.id);
    var g' := DeleteNode(Root, g, n.id).value;
    assert g'.boundaries[0] in g'.boundaries && n.id in g'.boundaries[0].members;
    assert n.id !in NodeIds(g'.nodes);
  }

  /** One boundary lists the only node, which names no boundary. */
  ghost function StrayPayload(): Payload {
    Payload([NodePayload(Some(1), "process", "n", 0.0, 0.0, None, None, None, Fields(map[]))], [],
            [BoundaryPayload(Some(2), BoundaryDraft("b", [1], Geometry.NO_RECT, None, None))])
  }

  lemma StrayDraft(mint: nat -> Uuid) returns (n: Node, b: Boundary)
    ensures DraftGraph(StrayPayload(), mint) == Graph([n], [], [b]) && BuiltNodes(StrayPayload(), mint) == [n]
    ensures n.id == 1 && n.home == None && b.members == [1] && b.parent == None
  {
    var g := DraftGraph(StrayPayload(), mint);
    var p := StrayPayload().nodes[0];
    n, b := BuiltNode(p, mint(0)), g.boundaries[0];
    assert p.id == Some(1);
    assert g == Graph([n], [], [b]);
  }

  lemma StrayMaterialized(mint: nat -> Uuid, n: Node) returns (b: Boundary)
    requires MembersKnown(StrayPayload(), mint) && BuiltNodes(StrayPayload(), mint) == [n]
    ensures Materialized(StrayPayload(), mint) == Graph([n], [], [b]) && b.members == [1] && b.parent == None
  {
    var g := Materialized(StrayPayload(), mint);
    b := g.boundaries[0];
    assert g == Graph([n], [], [b]);
  }

  /** A payload bulk save accepts and after which deleting the only node leaves it listed. */
  lemma RootDropCanDangle(mint: nat -> Uuid)
    ensures var d := StrayPayload();
            WellFormed(DraftGraph(d, mint)) && MembersKnown(d, mint) && DeleteNode(Root, Materialized(d, mint), 1).Ok?
            && !MembersResolve(DeleteNode(Root, Materialized(d, mint), 1).value)
  {
    var n, b := StrayDraft(mint);
    TinyWellFormed(n, b);
    MaterializedWellFormed(StrayPayload(), mint);
    var b' := StrayMaterialized(mint, n);
    TinyDangles(n, b');
  }
}
