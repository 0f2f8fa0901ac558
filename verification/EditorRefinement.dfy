/** One editor request as data, its effect on the graph document, its effect on the keyed tables,
    and the simulation between the two. */
module EditorRefinement {
  import opened Wrappers
  import opened DfdGraph
  import opened Geometry
  import opened Membership
  import opened GraphOps
  import opened GraphTables

  datatype Op =
    | NewNode(node: Node, home: Option<Uuid>)
    | EditNode(id: Uuid, patch: NodePatch)
    | DropNode(id: Uuid)
    | NewEdge(edge: Edge, elsewhere: set<Uuid>)
    | EditEdge(id: Uuid, caption: Option<Option<string>>, props: Option<Props>)
    | DropEdge(id: Uuid)
    | QuickNode(origin: Uuid, fromOrigin: bool, node: Node, home: Option<Uuid>, edge: Edge)
    | NewBoundary(id: Uuid, draft: BoundaryDraft)
    | DropBoundary(id: Uuid)

  function Apply(mode: Mode, g: Graph, op: Op): Result<Graph, EditError> {
    match op
    case NewNode(n, home) => CreateNode(mode, g, n, home)
    case EditNode(id, p) => UpdateNode(mode, g, id, p)
    case DropNode(id) => DeleteNode(mode, g, id)
    case NewEdge(e, elsewhere) => CreateEdge(mode, g, e, elsewhere)
    case EditEdge(id, caption, props) => UpdateEdge(mode, g, id, caption, props)
    case DropEdge(id) => DeleteEdge(g, id)
    case QuickNode(origin, fromOrigin, n, home, e) => QuickAdd(mode, g, origin, fromOrigin, n, home, e)
    case NewBoundary(id, d) => CreateBoundary(mode, g, id, d)
    case DropBoundary(id) => DeleteBoundary(mode, g, id)
  }

  /** A node of another model. */
  predicate Foreign(g: Graph, id: Uuid, elsewhere: set<Uuid>) {
    id in elsewhere && id !in NodeIds(g.nodes)
  }

  /** A custom view does not check caller-supplied ids, so freshness is up to the caller; the root
      tables reject a duplicate id themselves, but accept an edge to another model's node. */
  ghost predicate Admissible(mode: Mode, g: Graph, op: Op) {
    match op
    case NewNode(n, _) => mode == View ==> n.id !in NodeIds(g.nodes)
    case NewEdge(e, elsewhere) =>
      if mode == View then e.id !in EdgeIds(g.edges)
      else !Foreign(g, e.source, elsewhere) && !Foreign(g, e.target, elsewhere)
    case QuickNode(_, _, n, _, e) => mode == View ==> e.id !in EdgeIds(g.edges) && n.id !in NodeIds(g.nodes)
    case NewBoundary(id, _) => mode == View ==> id !in BoundaryIds(g.boundaries)
    case _ => true
  }

  // ---- The same requests on keyed tables ----

  predicate TableHome(t: Tables, home: Option<Uuid>) {
    home.Some? ==> home.value in t.boundaries
  }

  function TableNewNode(mode: Mode, t: Tables, n: Node, home: Option<Uuid>): Result<Tables, EditError> {
    if mode == Root && n.id in t.nodes then Err(DuplicateId)
    else if !TableHome(t, home) then Err(InvalidBoundary)
    else Ok(t.(nodes := t.nodes[n.id := n.(home := home)]))
  }

  function TablePoints(nodes: map<Uuid, Node>, ids: seq<Uuid>): seq<Point>
    requires forall x <- ids :: x in nodes
  {
    seq(|ids|, i requires 0 <= i < |ids| => Point(nodes[ids[i]].x, nodes[ids[i]].y))
  }

  function TableWithoutIncident(edges: map<Uuid, Edge>, id: Uuid): map<Uuid, Edge> {
    map e | e in edges && edges[e].source != id && edges[e].target != id :: edges[e]
  }

  function TableRehome(nodes: map<Uuid, Node>, ids: seq<Uuid>, home: Option<Uuid>): map<Uuid, Node> {
    map x | x in nodes :: if x in ids then nodes[x].(home := home) else nodes[x]
  }

  function TableClearHome(nodes: map<Uuid, Node>, id: Uuid): map<Uuid, Node> {
    map x | x in nodes :: if nodes[x].home == Some(id) then nodes[x].(home := None) else nodes[x]
  }

  function TableClearParent(bs: map<Uuid, Boundary>, id: Uuid): map<Uuid, Boundary> {
    map b | b in bs :: if bs[b].parent == Some(id) then bs[b].(parent := None) else bs[b]
  }

  /** The document of a view keeps its properties when a null is sent, the JSON column takes it. */
  function TableProps(mode: Mode, current: Props, sent: Option<Props>): Props {
    match sent
    case None => current
    case Some(NullProps) => if mode == Root then NullProps else current
    case Some(Fields(fields)) => Fields(fields)
  }

  function TablePatched(mode: Mode, n: Node, p: NodePatch): Node
    requires p.name != Some(None) && p.nodeType != Some(None) && p.x != Some(None) && p.y != Some(None)
  {
    Node(n.id, if p.nodeType.Some? then p.nodeType.value.value else n.nodeType,
         if p.name.Some? then p.name.value.value else n.name,
         if p.x.Some? then p.x.value.value else n.x, if p.y.Some? then p.y.value.value else n.y,
         if p.home.Some? then p.home.value else n.home, if p.scanUrl.Some? then p.scanUrl.value else n.scanUrl,
         if p.scanPorts.Some? then p.scanPorts.value else n.scanPorts, TableProps(mode, n.props, p.props))
  }

  function TableEditNode(mode: Mode, t: Tables, id: Uuid, p: NodePatch): Result<Tables, EditError> {
    if id !in t.nodes then Err(NotFound)
    else
      var n := t.nodes[id];
      var nulls := p.name == Some(None) || p.nodeType == Some(None) || p.x == Some(None) || p.y == Some(None);
      if mode == Root && nulls then Err(NullField)
      else if p.home.Some? && !TableHome(t, p.home.value) then Err(InvalidBoundary)
      else if nulls then Err(NullField)
      else
        Ok(t.(nodes := t.nodes[id := TablePatched(mode, n, p)]))
  }

  function TableDropNode(t: Tables, id: Uuid): Result<Tables, EditError> {
    if id !in t.nodes then Err(NotFound)
    else Ok(t.(nodes := t.nodes - {id}, edges := TableWithoutIncident(t.edges, id)))
  }

  function TableNewEdge(mode: Mode, t: Tables, e: Edge): Result<Tables, EditError> {
    if mode == Root && e.id in t.edges then Err(DuplicateId)
    else if e.source !in t.nodes || e.target !in t.nodes then Err(InvalidEndpoints)
    else Ok(t.(edges := t.edges[e.id := e]))
  }

  function TableEditEdge(mode: Mode, t: Tables, id: Uuid, caption: Option<Option<string>>, props: Option<Props>)
    : Result<Tables, EditError>
  {
    if id !in t.edges then Err(NotFound)
    else
      var e := t.edges[id];
      if caption == Some(None) then Err(NullField)
      else
        Ok(t.(edges := t.edges[id := e.(caption := if caption.Some? then caption.value.value else e.caption,
                                        props := TableProps(mode, e.props, props))]))
  }

  function TableDropEdge(t: Tables, id: Uuid): Result<Tables, EditError> {
    if id !in t.edges then Err(NotFound) else Ok(t.(edges := t.edges - {id}))
  }

  function TableQuickNode(mode: Mode, t: Tables, origin: Uuid, fromOrigin: bool, n: Node, home: Option<Uuid>, e: Edge)
    : Result<Tables, EditError>
  {
    if origin !in t.nodes then Err(NotFound)
    else
      var link := if fromOrigin then Edge(e.id, origin, n.id, e.caption, e.props)
                  else Edge(e.id, n.id, origin, e.caption, e.props);
      var r := TableNewNode(mode, t, n, home);
      if r.Err? then r
      else if mode == Root && e.id in t.edges then Err(DuplicateId)
      else Ok(r.value.(edges := r.value.edges[e.id := link]))
  }

  function TableNewBoundary(mode: Mode, t: Tables, id: Uuid, d: BoundaryDraft): Result<Tables, EditError> {
    if exists x <- d.members :: x !in t.nodes then Err(InvalidMembers)
    else if mode == Root && d.parent.Some? && d.parent.value !in t.boundaries then Err(InvalidBoundary)
    else if mode == Root && d.parent == Some(id) then Err(SelfParent)
    else if mode == Root && id in t.boundaries then Err(DuplicateId)
    else
      var rect := ResolveGeometry(d.rect, TablePoints(t.nodes, Dedupe(d.members)));
      var b := Boundary(id, d.name, [], rect, if mode == Root then d.kind else None,
                        if mode == Root then d.parent else None);
      Ok(t.(nodes := TableRehome(t.nodes, d.members, Some(id)), boundaries := t.boundaries[id := b]))
  }

  function TableDropBoundary(mode: Mode, t: Tables, id: Uuid): Result<Tables, EditError> {
    if id !in t.boundaries then Err(NotFound)
    else
      var rest := t.boundaries - {id};
      Ok(t.(nodes := TableClearHome(t.nodes, id),
            boundaries := if mode == View then rest else TableClearParent(rest, id)))
  }

  function TableApply(mode: Mode, t: Tables, op: Op): Result<Tables, EditError> {
    match op
    case NewNode(n, home) => TableNewNode(mode, t, n, home)
    case EditNode(id, p) => TableEditNode(mode, t, id, p)
    case DropNode(id) => TableDropNode(t, id)
    case NewEdge(e, _) => TableNewEdge(mode, t, e)
    case EditEdge(id, caption, props) => TableEditEdge(mode, t, id, caption, props)
    case DropEdge(id) => TableDropEdge(t, id)
    case QuickNode(origin, fromOrigin, n, home, e) => TableQuickNode(mode, t, origin, fromOrigin, n, home, e)
    case NewBoundary(id, d) => TableNewBoundary(mode, t, id, d)
    case DropBoundary(id) => TableDropBoundary(mode, t, id)
  }

  /** The request's answer on the document matches its answer on the tables. */
  ghost predicate Simulates(r: Result<Graph, EditError>, t: Result<Tables, EditError>) {
    match r
    case Err(e) => t == Err(e)
    case Ok(g') => Linked(g') && t == Ok(TablesOf(g'))
  }

  lemma AppendedIds(nodes: seq<Node>, n: Node)
    ensures NodeIds(nodes + [n]) == NodeIds(nodes) + {n.id}
  {
    assert n in nodes + [n];
    forall m <- nodes ensures m in nodes + [n] {}
  }

  lemma NodeAppended(nodes: seq<Node>, n: Node)
    requires UniqueNodes(nodes) && n.id !in NodeIds(nodes)
    ensures UniqueNodes(nodes + [n]) && NodeIds(nodes + [n]) == NodeIds(nodes) + {n.id}
    ensures NodeTable(nodes + [n]) == NodeTable(nodes)[n.id := n]
  {
    AppendedIds(nodes, n);
    forall m <- nodes ensures m.id != n.id { assert m.id in NodeIds(nodes); }
    NodeTableIs(nodes + [n], NodeTable(nodes)[n.id := n]) by {
      forall m <- nodes + [n] ensures m.id in NodeTable(nodes)[n.id := n] && NodeTable(nodes)[n.id := n][m.id] == m {
        if m in nodes { NodeRow(nodes, m); }
      }
    }
  }

  lemma EdgeAppended(edges: seq<Edge>, e: Edge)
    requires UniqueEdges(edges) && e.id !in EdgeIds(edges)
    ensures UniqueEdges(edges + [e]) && EdgeIds(edges + [e]) == EdgeIds(edges) + {e.id}
    ensures EdgeTable(edges + [e]) == EdgeTable(edges)[e.id := e]
  {
    forall m <- edges ensures m.id in EdgeTable(edges) && EdgeTable(edges)[m.id] == m && m.id != e.id {
      EdgeRow(edges, m);
    }
    EdgeTableIs(edges + [e], EdgeTable(edges)[e.id := e]);
  }

  lemma AppendedLinked(g: Graph, n: Node, bs': seq<Boundary>)
    requires Linked(g) && n.id !in NodeIds(g.nodes) && HomeExists(g, n.home)
    requires Synced(g.boundaries, bs', n.id, n.home)
    ensures Linked(Graph(g.nodes + [n], g.edges, bs'))
  {
    NodeAppended(g.nodes, n);
    SyncedLinked(g, Graph(g.nodes + [n], g.edges, bs'), n.id, n.home);
  }

  lemma UnlistedSynced(mode: Mode, g: Graph, id: Uuid, home: Option<Uuid>)
    requires Linked(g) && id !in NodeIds(g.nodes)
    ensures Synced(g.boundaries, Sync(mode, g.boundaries, id, None, home), id, home)
  {
    forall k | 0 <= k < |g.boundaries|
      ensures Sync(mode, g.boundaries, id, None, home)[k]
           == g.boundaries[k].(members := ScannedMembers(g.boundaries[k], id, home))
    {
      SyncPointwise(mode, g.boundaries, id, None, home, k);
    }
  }

  lemma NewNodeSimulates(mode: Mode, g: Graph, n: Node, home: Option<Uuid>)
    requires Linked(g) && (mode == View ==> n.id !in NodeIds(g.nodes))
    ensures Simulates(CreateNode(mode, g, n, home), TableNewNode(mode, TablesOf(g), n, home))
  {
    if CreateNode(mode, g, n, home).Ok? {
      var bs' := Sync(mode, g.boundaries, n.id, None, home);
      UnlistedSynced(mode, g, n.id, home);
      SameRecords(g.boundaries, bs');
      NodeAppended(g.nodes, n.(home := home));
      AppendedLinked(g, n.(home := home), bs');
    }
  }

  // ---- Node edits ----

  /** Changing a node's other fields disturbs no link. */
  lemma RelabelledLinked(g: Graph, i: nat, n: Node)
    requires Linked(g) && i < |g.nodes| && n.id == g.nodes[i].id && n.home == g.nodes[i].home
    ensures Linked(g.(nodes := g.nodes[i := n]))
  {
    var g' := g.(nodes := g.nodes[i := n]);
    NodeReplaced(g.nodes, i, n);
    assert g.nodes[i] in g.nodes;
    forall m <- g'.nodes
      ensures m.home.Some? ==> m.home.value in BoundaryIds(g'.boundaries)
      ensures forall b <- g'.boundaries :: m.home == Some(b.id) <==> m.id in b.members
    {
      var j := ReplacedAt(g.nodes, i, n, m);
      assert g.nodes[j] in g.nodes;
    }
  }

  lemma Overwrite(t: map<Uuid, Node>, id: Uuid, a: Node, b: Node)
    ensures t[id := a][id := b] == t[id := b]
    ensures t[id := a] - {id} == t - {id}
  {}

  lemma PatchedMoved(mode: Mode, g: Graph, i: nat, n: Node, home: Option<Uuid>)
    requires Linked(g) && i < |g.nodes| && n.id == g.nodes[i].id && n.home == g.nodes[i].home && HomeExists(g, home)
    ensures var moved := Move(mode, g.(nodes := g.nodes[i := n]), i, home);
            Linked(moved) && TablesOf(moved) == TablesOf(g).(nodes := NodeTable(g.nodes)[n.id := n.(home := home)])
  {
    var edited := g.(nodes := g.nodes[i := n]);
    RelabelledLinked(g, i, n);
    NodeReplaced(g.nodes, i, n);
    MoveLinked(mode, edited, i, home);
    MoveTables(mode, edited, i, home);
    Overwrite(NodeTable(g.nodes), n.id, n, n.(home := home));
  }

  lemma PatchedInPlace(g: Graph, i: nat, n: Node)
    requires Linked(g) && i < |g.nodes| && n.id == g.nodes[i].id && n.home == g.nodes[i].home
    ensures var edited := g.(nodes := g.nodes[i := n]);
            Linked(edited) && TablesOf(edited) == TablesOf(g).(nodes := NodeTable(g.nodes)[n.id := n])
  {
    RelabelledLinked(g, i, n);
    NodeReplaced(g.nodes, i, n);
  }

  lemma EditNodeAccepted(mode: Mode, g: Graph, i: nat, n: Node, home: Option<Option<Uuid>>, r: Graph)
    requires Linked(g) && i < |g.nodes| && n.id == g.nodes[i].id && n.home == g.nodes[i].home
    requires home.Some? ==> HomeExists(g, home.value)
    requires r == if home == None then g.(nodes := g.nodes[i := n])
            else Move(mode, g.(nodes := g.nodes[i := n]), i, home.value)
    ensures Linked(r) && TablesOf(r)
            == TablesOf(g).(nodes := NodeTable(g.nodes)[n.id := n.(home := Patch(n.home, home))])
  {
    if home == None {
      PatchedInPlace(g, i, n);
    } else {
      PatchedMoved(mode, g, i, n, home.value);
    }
  }

  lemma TablePatchedSame(mode: Mode, n: Node, p: NodePatch)
    requires !NullsRequired(p)
    ensures TablePatched(mode, n, p) == Patched(mode, n, p).(home := Patch(n.home, p.home))
  {}

  lemma EditNodeSimulates(mode: Mode, g: Graph, id: Uuid, p: NodePatch)
    requires Linked(g)
    ensures Simulates(UpdateNode(mode, g, id, p), TableEditNode(mode, TablesOf(g), id, p))
  {
    if id in NodeIds(g.nodes) {
      var i := FindNode(g.nodes, id).value;
      NodeRow(g.nodes, g.nodes[i]);
      if UpdateNode(mode, g, id, p).Ok? {
        EditNodeTable(mode, g, i, p, UpdateNode(mode, g, id, p).value);
      }
    }
  }

  lemma EditNodeTable(mode: Mode, g: Graph, i: nat, p: NodePatch, r: Graph)
    requires Linked(g) && i < |g.nodes| && !NullsRequired(p) && (p.home.Some? ==> HomeExists(g, p.home.value))
    requires var edited := g.(nodes := g.nodes[i := Patched(mode, g.nodes[i], p)]);
             r == if p.home == None then edited else Move(mode, edited, i, p.home.value)
    ensures Linked(r)
    ensures TablesOf(r)
         == TablesOf(g).(nodes := NodeTable(g.nodes)[g.nodes[i].id := TablePatched(mode, g.nodes[i], p)])
  {
    EditNodeAccepted(mode, g, i, Patched(mode, g.nodes[i], p), p.home, r);
    TablePatchedSame(mode, g.nodes[i], p);
  }

  /** A node no boundary lists can be dropped together with its edges. */
  lemma DroppedLinked(g: Graph, id: Uuid)
    requires Linked(g) && forall b <- g.boundaries :: id !in b.members
    ensures Linked(Graph(WithoutNode(g.nodes, id), WithoutIncident(g.edges, id), g.boundaries))
  {
    var g' := Graph(WithoutNode(g.nodes, id), WithoutIncident(g.edges, id), g.boundaries);
    forall x | x in NodeIds(g.nodes) && x != id ensures x in NodeIds(g'.nodes) {
      var n :| n in g.nodes && n.id == x;
      assert n in g'.nodes;
    }
    forall b <- g'.boundaries, x <- b.members ensures x in NodeIds(g'.nodes) {}
  }

  lemma WithoutNodeTable(nodes: seq<Node>, id: Uuid)
    requires UniqueNodes(nodes)
    ensures NodeTable(WithoutNode(nodes, id)) == NodeTable(nodes) - {id}
  {
    forall n <- nodes ensures n.id in NodeTable(nodes) && NodeTable(nodes)[n.id] == n { NodeRow(nodes, n); }
    assert NodeIds(WithoutNode(nodes, id)) == (NodeTable(nodes) - {id}).Keys;
    NodeTableIs(WithoutNode(nodes, id), NodeTable(nodes) - {id});
  }

  lemma WithoutIncidentTable(edges: seq<Edge>, id: Uuid)
    requires UniqueEdges(edges)
    ensures EdgeTable(WithoutIncident(edges, id)) == TableWithoutIncident(EdgeTable(edges), id)
  {
    var t := TableWithoutIncident(EdgeTable(edges), id);
    forall e <- edges ensures e.id in EdgeTable(edges) && EdgeTable(edges)[e.id] == e { EdgeRow(edges, e); }
    assert EdgeIds(WithoutIncident(edges, id)) == t.Keys;
    EdgeTableIs(WithoutIncident(edges, id), t);
  }

  lemma ClearedUnlisted(mode: Mode, g: Graph, i: nat)
    requires Linked(g) && i < |g.nodes|
    ensures forall b <- Move(mode, g, i, None).boundaries :: g.nodes[i].id !in b.members
  {
    MoveLinked(mode, g, i, None);
    var r := Move(mode, g, i, None);
    assert r.nodes[i] in r.nodes && r.nodes[i].home == None;
  }

  lemma DropNodeTables(mode: Mode, g: Graph, i: nat)
    requires UniqueIds(g) && i < |g.nodes|
    ensures var id, cleared := g.nodes[i].id, Move(mode, g, i, None);
            TablesOf(Graph(WithoutNode(cleared.nodes, id), WithoutIncident(g.edges, id), cleared.boundaries)) ==
            Tables(NodeTable(g.nodes) - {id}, TableWithoutIncident(EdgeTable(g.edges), id), BoundaryTable(g.boundaries))
  {
    var n := g.nodes[i];
    var nodes' := g.nodes[i := n.(home := None)];
    NodeReplaced(g.nodes, i, n.(home := None));
    WithoutNodeTable(nodes', n.id);
    WithoutIncidentTable(g.edges, n.id);
    Overwrite(NodeTable(g.nodes), n.id, n.(home := None), n);
    SameRecords(g.boundaries, Move(mode, g, i, None).boundaries);
  }

  lemma DropNodeLinked(mode: Mode, g: Graph, i: nat)
    requires Linked(g) && i < |g.nodes|
    ensures var id, cleared := g.nodes[i].id, Move(mode, g, i, None);
            Linked(Graph(WithoutNode(cleared.nodes, id), WithoutIncident(g.edges, id), cleared.boundaries))
  {
    MoveLinked(mode, g, i, None);
    ClearedUnlisted(mode, g, i);
    DroppedLinked(Move(mode, g, i, None), g.nodes[i].id);
  }

  lemma DropNodeSimulates(mode: Mode, g: Graph, id: Uuid)
    requires Linked(g)
    ensures Simulates(DeleteNode(mode, g, id), TableDropNode(TablesOf(g), id))
  {
    if DeleteNode(mode, g, id).Ok? {
      DropNodeTables(mode, g, FindNode(g.nodes, id).value);
      DropNodeLinked(mode, g, FindNode(g.nodes, id).value);
    }
  }

  // ---- Edges ----

  lemma EdgesLinked(g: Graph, edges': seq<Edge>)
    requires Linked(g) && UniqueEdges(edges')
    requires forall e <- edges' :: e.source in NodeIds(g.nodes) && e.target in NodeIds(g.nodes)
    ensures Linked(g.(edges := edges'))
  {}

  lemma EdgeAdded(g: Graph, e: Edge)
    requires Linked(g) && e.id !in EdgeIds(g.edges) && e.source in NodeIds(g.nodes) && e.target in NodeIds(g.nodes)
    ensures var added := g.(edges := g.edges + [e]);
            Linked(added) && TablesOf(added) == TablesOf(g).(edges := EdgeTable(g.edges)[e.id := e])
  {
    EdgeAppended(g.edges, e);
    EdgesLinked(g, g.edges + [e]);
  }

  lemma NewEdgeSimulates(mode: Mode, g: Graph, e: Edge, elsewhere: set<Uuid>)
    requires Linked(g) && Admissible(mode, g, NewEdge(e, elsewhere))
    ensures Simulates(CreateEdge(mode, g, e, elsewhere), TableNewEdge(mode, TablesOf(g), e))
  {
    if CreateEdge(mode, g, e, elsewhere).Ok? {
      EdgeAdded(g, e);
    }
  }

  lemma EdgeReplaced(edges: seq<Edge>, i: nat, e: Edge)
    requires UniqueEdges(edges) && i < |edges| && e.id == edges[i].id
    ensures UniqueEdges(edges[i := e]) && EdgeTable(edges[i := e]) == EdgeTable(edges)[e.id := e]
  {
    var edges', t := edges[i := e], EdgeTable(edges)[e.id := e];
    forall j | 0 <= j < |edges| ensures edges'[j].id == edges[j].id {}
    assert EdgeIds(edges') == t.Keys by {
      forall m <- edges ensures m.id in EdgeIds(edges') {
        var j :| 0 <= j < |edges| && edges[j] == m;
        assert edges'[j] in edges';
      }
    }
    EdgeTableIs(edges', t) by {
      forall m <- edges' ensures m.id in t && t[m.id] == m {
        var j :| 0 <= j < |edges'| && edges'[j] == m;
        EdgeRow(edges, edges[j]);
      }
    }
  }

  lemma TablePropsSame(mode: Mode, current: Props, sent: Option<Props>)
    ensures TableProps(mode, current, sent) == PatchProps(mode, current, sent)
  {}

  lemma EditEdgeSimulates(mode: Mode, g: Graph, id: Uuid, caption: Option<Option<string>>, props: Option<Props>)
    requires Linked(g)
    ensures Simulates(UpdateEdge(mode, g, id, caption, props), TableEditEdge(mode, TablesOf(g), id, caption, props))
  {
    if UpdateEdge(mode, g, id, caption, props).Ok? {
      var i := FindEdge(g.edges, id).value;
      var e := g.edges[i];
      var e' := e.(caption := Required(e.caption, caption), props := PatchProps(mode, e.props, props));
      TablePropsSame(mode, e.props, props);
      EdgeReplaced(g.edges, i, e');
      EdgesLinked(g, g.edges[i := e']) by {
        assert e in g.edges;
      }
    }
  }

  lemma WithoutEdgeTable(edges: seq<Edge>, id: Uuid)
    requires UniqueEdges(edges)
    ensures EdgeTable(WithoutEdge(edges, id)) == EdgeTable(edges) - {id}
  {
    forall e <- edges ensures e.id in EdgeTable(edges) && EdgeTable(edges)[e.id] == e { EdgeRow(edges, e); }
    assert EdgeIds(WithoutEdge(edges, id)) == (EdgeTable(edges) - {id}).Keys;
    EdgeTableIs(WithoutEdge(edges, id), EdgeTable(edges) - {id});
  }

  lemma DropEdgeSimulates(g: Graph, id: Uuid)
    requires Linked(g)
    ensures Simulates(DeleteEdge(g, id), TableDropEdge(TablesOf(g), id))
  {
    if DeleteEdge(g, id).Ok? {
      WithoutEdgeTable(g.edges, id);
      EdgesLinked(g, WithoutEdge(g.edges, id));
    }
  }

  lemma QuickAccepted(g: Graph, link: Edge, inner: Graph, table: Tables)
    requires Linked(inner) && TablesOf(inner) == table && inner.edges == g.edges
    requires link.id !in EdgeIds(g.edges) && link.source in NodeIds(inner.nodes) && link.target in NodeIds(inner.nodes)
    ensures var added := inner.(edges := inner.edges + [link]);
            Linked(added) && TablesOf(added) == table.(edges := table.edges[link.id := link])
  {
    EdgeAdded(inner, link);
  }

  lemma QuickEnds(g: Graph, origin: Uuid, fromOrigin: bool, n: Node, e: Edge)
    requires origin in NodeIds(g.nodes)
    ensures var link, ids := QuickLink(origin, fromOrigin, n.id, e), NodeIds(g.nodes + [n]);
            link.id == e.id && link.source in ids && link.target in ids
  {
    AppendedIds(g.nodes, n);
  }

  lemma QuickBoth(mode: Mode, g: Graph, origin: Uuid, fromOrigin: bool, n: Node, home: Option<Uuid>, e: Edge,
                  inner: Graph, table: Tables)
    requires Linked(g) && origin in NodeIds(g.nodes) && e.id !in EdgeIds(g.edges)
    requires CreateNode(mode, g, n, home) == Ok(inner) && TableNewNode(mode, TablesOf(g), n, home) == Ok(table)
    requires Linked(inner) && TablesOf(inner) == table
    ensures Simulates(QuickAdd(mode, g, origin, fromOrigin, n, home, e),
                      TableQuickNode(mode, TablesOf(g), origin, fromOrigin, n, home, e))
  {
    var link := QuickLink(origin, fromOrigin, n.id, e);
    QuickEnds(g, origin, fromOrigin, n.(home := home), e);
    QuickAccepted(g, link, inner, table);
    QuickAddIs(mode, g, origin, fromOrigin, n, home, e, inner);
    TableQuickIs(mode, TablesOf(g), origin, fromOrigin, n, home, e, table);
  }

  lemma QuickAddIs(mode: Mode, g: Graph, origin: Uuid, fromOrigin: bool, n: Node, home: Option<Uuid>, e: Edge,
                   inner: Graph)
    requires origin in NodeIds(g.nodes) && e.id !in EdgeIds(g.edges) && CreateNode(mode, g, n, home) == Ok(inner)
    ensures QuickAdd(mode, g, origin, fromOrigin, n, home, e)
            == Ok(inner.(edges := inner.edges + [QuickLink(origin, fromOrigin, n.id, e)]))
  {}

  lemma TableQuickIs(mode: Mode, t: Tables, origin: Uuid, fromOrigin: bool, n: Node, home: Option<Uuid>, e: Edge,
                     table: Tables)
    requires origin in t.nodes && e.id !in t.edges && TableNewNode(mode, t, n, home) == Ok(table)
    ensures TableQuickNode(mode, t, origin, fromOrigin, n, home, e)
            == Ok(table.(edges := table.edges[e.id := QuickLink(origin, fromOrigin, n.id, e)]))
  {}

  lemma QuickNodeSimulates(mode: Mode, g: Graph, origin: Uuid, fromOrigin: bool, n: Node, home: Option<Uuid>, e: Edge)
    requires Linked(g) && Admissible(mode, g, QuickNode(origin, fromOrigin, n, home, e))
    ensures Simulates(QuickAdd(mode, g, origin, fromOrigin, n, home, e),
                      TableQuickNode(mode, TablesOf(g), origin, fromOrigin, n, home, e))
  {
    NewNodeSimulates(mode, g, n, home);
    var inner, table := CreateNode(mode, g, n, home), TableNewNode(mode, TablesOf(g), n, home);
    if origin in NodeIds(g.nodes) && inner.Ok? && e.id !in EdgeIds(g.edges) {
      QuickBoth(mode, g, origin, fromOrigin, n, home, e, inner.value, table.value);
    } else {
      assert QuickAdd(mode, g, origin, fromOrigin, n, home, e).Err?;
    }
  }

  // ---- Boundaries ----

  lemma BoundaryAppended(bs: seq<Boundary>, b: Boundary)
    requires UniqueBoundaries(bs) && b.id !in BoundaryIds(bs)
    ensures UniqueBoundaries(bs + [b]) && BoundaryIds(bs + [b]) == BoundaryIds(bs) + {b.id}
    ensures BoundaryTable(bs + [b]) == BoundaryTable(bs)[b.id := b.(members := [])]
  {
    assert UniqueBoundaries(bs + [b]) && BoundaryIds(bs + [b]) == BoundaryIds(bs) + {b.id} by {
      forall c <- bs ensures c.id != b.id && c.id in BoundaryIds(bs) {}
    }
    var t := BoundaryTable(bs)[b.id := b.(members := [])];
    BoundaryTableIs(bs + [b], t) by {
      forall c <- bs + [b] ensures c.id in t && t[c.id] == c.(members := []) {
        if c in bs { BoundaryRow(bs, c); }
      }
    }
  }

  lemma EmptyBoundaryTwoWay(g: Graph, bs: seq<Boundary>, b: Boundary)
    requires TwoWay(g) && HomesResolve(g) && bs == g.boundaries
    requires b.id !in BoundaryIds(bs) && b.members == []
    ensures TwoWay(g.(boundaries := bs + [b]))
  {
    forall n <- g.nodes ensures n.home != Some(b.id) {}
  }

  /** Nothing can name a boundary that is not there yet, so an empty one can simply be added. */
  lemma EmptyBoundaryLinked(g: Graph, b: Boundary)
    requires Linked(g) && b.id !in BoundaryIds(g.boundaries) && b.members == []
    ensures Linked(g.(boundaries := g.boundaries + [b]))
  {
    EmptyBoundaryTwoWay(g, g.boundaries, b);
    EmptyBoundaryStillResolves(g, b);
  }

  lemma EmptyBoundaryStillResolves(g: Graph, b: Boundary)
    requires Resolved(g) && b.id !in BoundaryIds(g.boundaries) && b.members == []
    ensures Resolved(g.(boundaries := g.boundaries + [b]))
  {
    BoundaryAppended(g.boundaries, b);
  }

  lemma RehomeStep(t: map<Uuid, Node>, ids: seq<Uuid>, home: Option<Uuid>)
    requires ids != [] && ids[0] in t
    ensures TableRehome(t[ids[0] := t[ids[0]].(home := home)], ids[1..], home) == TableRehome(t, ids, home)
  {
    assert ids == [ids[0]] + ids[1..];
  }

  /** One membership change, as one row update. */
  lemma MoveOnce(mode: Mode, g: Graph, id: Uuid, home: Option<Uuid>, next: Graph)
    requires Linked(g) && HomeExists(g, home) && id in NodeIds(g.nodes)
    requires next == Move(mode, g, FindNode(g.nodes, id).value, home)
    ensures Linked(next) && HomeExists(next, home) && Parents(next.boundaries) == Parents(g.boundaries)
    ensures id in NodeTable(g.nodes)
    ensures TablesOf(next) == TablesOf(g).(nodes := NodeTable(g.nodes)[id := NodeTable(g.nodes)[id].(home := home)])
  {
    var i := FindNode(g.nodes, id).value;
    MoveLinked(mode, g, i, home);
    MoveTables(mode, g, i, home);
  }

  /** The listed rows got the home, and nothing else happened to the tables. */
  ghost predicate AllMoved(g: Graph, g': Graph, ids: seq<Uuid>, home: Option<Uuid>) {
    && Linked(g') && TablesOf(g') == TablesOf(g).(nodes := TableRehome(NodeTable(g.nodes), ids, home))
    && Parents(g'.boundaries) == Parents(g.boundaries)
  }

  lemma AllMovedStep(g: Graph, next: Graph, g': Graph, ids: seq<Uuid>, home: Option<Uuid>)
    requires ids != [] && ids[0] in NodeTable(g.nodes) && AllMoved(next, g', ids[1..], home)
    requires Parents(next.boundaries) == Parents(g.boundaries)
    requires var t := NodeTable(g.nodes); TablesOf(next) == TablesOf(g).(nodes := t[ids[0] := t[ids[0]].(home := home)])
    ensures AllMoved(g, g', ids, home)
  {
    RehomeStep(NodeTable(g.nodes), ids, home);
  }

  lemma {:induction false} MoveAllSimulates(mode: Mode, g: Graph, ids: seq<Uuid>, home: Option<Uuid>)
    requires Linked(g) && HomeExists(g, home) && forall id <- ids :: id in NodeIds(g.nodes)
    ensures AllMoved(g, MoveAll(mode, g, ids, home), ids, home)
    decreases |ids|
  {
    if ids == [] {
      assert TableRehome(NodeTable(g.nodes), [], home) == NodeTable(g.nodes);
    } else {
      var next := Move(mode, g, FindNode(g.nodes, ids[0]).value, home);
      MoveOnce(mode, g, ids[0], home, next);
      MoveAllSimulates(mode, next, ids[1..], home);
      AllMovedStep(g, next, MoveAll(mode, next, ids[1..], home), ids, home);
    }
  }

  lemma AdoptedSimulates(mode: Mode, g: Graph, b: Boundary, ids: seq<Uuid>)
    requires Linked(g) && b.id !in BoundaryIds(g.boundaries) && b.members == []
    requires forall id <- ids :: id in NodeIds(g.nodes)
    ensures var r := MoveAll(mode, g.(boundaries := g.boundaries + [b]), ids, Some(b.id));
            Linked(r) && TablesOf(r) == Tables(TableRehome(NodeTable(g.nodes), ids, Some(b.id)), EdgeTable(g.edges),
                                               BoundaryTable(g.boundaries)[b.id := b])
  {
    BoundaryAppended(g.boundaries, b);
    EmptyBoundaryLinked(g, b);
    MoveAllSimulates(mode, g.(boundaries := g.boundaries + [b]), ids, Some(b.id));
  }

  lemma RehomeSameIds(t: map<Uuid, Node>, ids: seq<Uuid>, home: Option<Uuid>)
    ensures TableRehome(t, Dedupe(ids), home) == TableRehome(t, ids, home)
  {}

  lemma TablePositions(nodes: seq<Node>, ids: seq<Uuid>)
    requires forall x <- ids :: x in NodeIds(nodes)
    ensures TablePoints(NodeTable(nodes), ids) == Positions(nodes, ids)
  {}

  lemma NewBoundarySimulates(mode: Mode, g: Graph, id: Uuid, d: BoundaryDraft)
    requires Linked(g) && (mode == View ==> id !in BoundaryIds(g.boundaries))
    ensures Simulates(CreateBoundary(mode, g, id, d), TableNewBoundary(mode, TablesOf(g), id, d))
  {
    if CreateBoundary(mode, g, id, d).Ok? {
      NewBoundaryAccepted(mode, g, id, d, Dedupe(d.members));
    } else {
      TableRefusesSame(mode, TablesOf(g), id, d);
    }
  }

  lemma TableRefusesSame(mode: Mode, t: Tables, id: Uuid, d: BoundaryDraft)
    requires BoundaryRefusal(mode, t.nodes.Keys, t.boundaries.Keys, id, d).Some?
    ensures TableNewBoundary(mode, t, id, d) == Err(BoundaryRefusal(mode, t.nodes.Keys, t.boundaries.Keys, id, d).value)
  {}

  lemma NewBoundaryAccepted(mode: Mode, g: Graph, id: Uuid, d: BoundaryDraft, ids: seq<Uuid>)
    requires Linked(g) && (mode == View ==> id !in BoundaryIds(g.boundaries)) && ids == Dedupe(d.members)
    requires CreateBoundary(mode, g, id, d).Ok?
    ensures Simulates(CreateBoundary(mode, g, id, d), TableNewBoundary(mode, TablesOf(g), id, d))
  {
    TablePositions(g.nodes, ids);
    var b := NewBoundaryRecord(mode, id, d, Positions(g.nodes, ids));
    AdoptedSimulates(mode, g, b, ids);
    RehomeSameIds(NodeTable(g.nodes), d.members, Some(id));
    TableNewBoundaryIs(mode, TablesOf(g), id, d, ids, b);
  }

  lemma TableNewBoundaryIs(mode: Mode, t: Tables, id: Uuid, d: BoundaryDraft, ids: seq<Uuid>, b: Boundary)
    requires ids == Dedupe(d.members) && (forall x <- d.members :: x in t.nodes)
    requires BoundaryRefusal(mode, t.nodes.Keys, t.boundaries.Keys, id, d) == None
    requires b == NewBoundaryRecord(mode, id, d, TablePoints(t.nodes, ids))
    ensures TableNewBoundary(mode, t, id, d)
         == Ok(t.(nodes := TableRehome(t.nodes, d.members, Some(id)), boundaries := t.boundaries[id := b]))
  {}

  lemma ClearHomeIds(nodes: seq<Node>, id: Uuid)
    ensures UniqueNodes(nodes) ==> UniqueNodes(ClearHome(nodes, id))
    ensures NodeIds(ClearHome(nodes, id)) == NodeIds(nodes)
  {
    var nodes' := ClearHome(nodes, id);
    forall j | 0 <= j < |nodes| ensures nodes'[j].id == nodes[j].id {}
    forall m <- nodes ensures m.id in NodeIds(nodes') {
      var j :| 0 <= j < |nodes| && nodes[j] == m;
      assert nodes'[j] in nodes';
    }
    forall m <- nodes' ensures m.id in NodeIds(nodes) {
      var j :| 0 <= j < |nodes'| && nodes'[j] == m;
      assert nodes[j] in nodes;
    }
  }

  lemma ClearHomeTable(nodes: seq<Node>, id: Uuid)
    requires UniqueNodes(nodes)
    ensures NodeTable(ClearHome(nodes, id)) == TableClearHome(NodeTable(nodes), id)
  {
    ClearHomeIds(nodes, id);
    var nodes', t := ClearHome(nodes, id), TableClearHome(NodeTable(nodes), id);
    NodeTableIs(nodes', t) by {
      forall m <- nodes' ensures m.id in t && t[m.id] == m {
        var j :| 0 <= j < |nodes'| && nodes'[j] == m;
        NodeRow(nodes, nodes[j]);
      }
    }
  }

  lemma WithoutBoundaryTable(bs: seq<Boundary>, id: Uuid)
    requires UniqueBoundaries(bs)
    ensures BoundaryIds(WithoutBoundary(bs, id)) == BoundaryIds(bs) - {id}
    ensures BoundaryTable(WithoutBoundary(bs, id)) == BoundaryTable(bs) - {id}
  {
    forall b <- bs ensures b.id in BoundaryTable(bs) && BoundaryTable(bs)[b.id] == b.(members := []) {
      BoundaryRow(bs, b);
    }
    assert BoundaryIds(WithoutBoundary(bs, id)) == (BoundaryTable(bs) - {id}).Keys;
    BoundaryTableIs(WithoutBoundary(bs, id), BoundaryTable(bs) - {id});
  }

  lemma ClearParentTable(bs: seq<Boundary>, id: Uuid)
    requires UniqueBoundaries(bs)
    ensures UniqueBoundaries(ClearParent(bs, id)) && BoundaryIds(ClearParent(bs, id)) == BoundaryIds(bs)
    ensures BoundaryTable(ClearParent(bs, id)) == TableClearParent(BoundaryTable(bs), id)
  {
    var bs', t := ClearParent(bs, id), TableClearParent(BoundaryTable(bs), id);
    SameIds(bs, bs');
    BoundaryTableIs(bs', t) by {
      forall m <- bs' ensures m.id in t && t[m.id] == m.(members := []) {
        var j :| 0 <= j < |bs'| && bs'[j] == m;
        BoundaryRow(bs, bs[j]);
      }
    }
  }

  lemma DropBoundaryLinked(g: Graph, id: Uuid, bs': seq<Boundary>)
    requires Linked(g) && UniqueBoundaries(bs') && BoundaryIds(bs') == BoundaryIds(g.boundaries) - {id}
    requires forall b' <- bs' :: exists b <- g.boundaries :: b.id == b'.id && b.members == b'.members
    ensures Linked(Graph(ClearHome(g.nodes, id), g.edges, bs'))
  {
    var nodes' := ClearHome(g.nodes, id);
    ClearHomeIds(g.nodes, id);
    forall m <- nodes'
      ensures m.home.Some? ==> m.home.value in BoundaryIds(bs')
      ensures forall b' <- bs' :: m.home == Some(b'.id) <==> m.id in b'.members
    {
      var j :| 0 <= j < |nodes'| && nodes'[j] == m;
      assert g.nodes[j] in g.nodes;
      forall b' <- bs' ensures b'.id != id {
        assert b'.id in BoundaryIds(bs');
      }
    }
  }

  /** What remains in the boundary table: every other boundary, its parent cleared in the root tables. */
  lemma RemainingBoundaries(mode: Mode, bs: seq<Boundary>, id: Uuid)
    requires UniqueBoundaries(bs)
    ensures var bs' := Remaining(mode, bs, id);
            UniqueBoundaries(bs') && BoundaryIds(bs') == BoundaryIds(bs) - {id}
            && forall b' <- bs' :: exists b <- bs :: b.id == b'.id && b.members == b'.members
    ensures var rest := BoundaryTable(bs) - {id};
            BoundaryTable(Remaining(mode, bs, id)) == if mode == View then rest else TableClearParent(rest, id)
  {
    var rest, bs' := WithoutBoundary(bs, id), Remaining(mode, bs, id);
    WithoutBoundaryTable(bs, id);
    ClearParentTable(rest, id);
    forall b' <- bs' ensures exists b <- bs :: b.id == b'.id && b.members == b'.members {
      var k :| 0 <= k < |bs'| && bs'[k] == b';
      assert rest[k] in bs;
    }
  }

  lemma DropBoundarySimulates(mode: Mode, g: Graph, id: Uuid)
    requires Linked(g)
    ensures Simulates(DeleteBoundary(mode, g, id), TableDropBoundary(mode, TablesOf(g), id))
  {
    if DeleteBoundary(mode, g, id).Ok? {
      RemainingBoundaries(mode, g.boundaries, id);
      ClearHomeTable(g.nodes, id);
      DropBoundaryLinked(g, id, Remaining(mode, g.boundaries, id));
    }
  }

  /** The redundant document refines the keyed tables: on a linked graph every request succeeds or
      fails as the table update does, ends in the same tables, and keeps the links consistent. */
  lemma ApplySimulates(mode: Mode, g: Graph, op: Op)
    requires Linked(g) && Admissible(mode, g, op)
    ensures Simulates(Apply(mode, g, op), TableApply(mode, TablesOf(g), op))
  {
    match op
    case NewNode(n, home) => NewNodeSimulates(mode, g, n, home);
    case EditNode(id, p) => EditNodeSimulates(mode, g, id, p);
    case DropNode(id) => DropNodeSimulates(mode, g, id);
    case NewEdge(e, elsewhere) => NewEdgeSimulates(mode, g, e, elsewhere);
    case EditEdge(id, caption, props) => EditEdgeSimulates(mode, g, id, caption, props);
    case DropEdge(id) => DropEdgeSimulates(g, id);
    case QuickNode(origin, fromOrigin, n, home, e) => QuickNodeSimulates(mode, g, origin, fromOrigin, n, home, e);
    case NewBoundary(id, d) => NewBoundarySimulates(mode, g, id, d);
    case DropBoundary(id) => DropBoundarySimulates(mode, g, id);
  }
}
