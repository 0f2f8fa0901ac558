/** What each editor request does to the graph it is given.  A request works on a private copy
    (a deserialised view, or an open transaction), so a rejected one changes nothing. */
module GraphOps {
  import opened Wrappers
  import opened DfdGraph
  import opened Geometry
  import opened Membership

  /** Custom views (decompositions, workspaces) store one graph document; the root diagram lives
      in tables with primary and foreign keys. */
  datatype Mode = View | Root

  datatype EditError =
    | NotFound
    | InvalidBoundary
    | InvalidMembers
    | InvalidEndpoints
    | DuplicateId
    | SelfParent
    | NullField

  /** A partial node update.  A field is Some exactly when the client sent it, and `Some(None)` when it sent null. */
  datatype NodePatch = NodePatch(
    name: Option<Option<string>>, nodeType: Option<Option<string>>, x: Option<Option<real>>, y: Option<Option<real>>,
    scanUrl: Option<Option<string>>, scanPorts: Option<Option<string>>, props: Option<Props>,
    home: Option<Option<Uuid>>)

  datatype BoundaryDraft = BoundaryDraft(
    name: string, members: seq<Uuid>, rect: PartialRect, kind: Option<string>, parent: Option<Uuid>)

  /** A field that may not become null. */
  function Required<T>(current: T, sent: Option<Option<T>>): T {
    if sent.Some? && sent.value.Some? then sent.value.value else current
  }

  /** An explicit null for a required field: the tables' NOT NULL and the view's schema both refuse it. */
  predicate NullsRequired(p: NodePatch) {
    p.name == Some(None) || p.nodeType == Some(None) || p.x == Some(None) || p.y == Some(None)
  }

  /** A view ignores an explicit null for the properties, the tables store it. */
  function PatchProps(mode: Mode, current: Props, sent: Option<Props>): Props {
    if sent == Some(NullProps) && mode == View then current else Patch(current, sent)
  }

  function Patched(mode: Mode, n: Node, p: NodePatch): Node {
    n.(name := Required(n.name, p.name), nodeType := Required(n.nodeType, p.nodeType),
       x := Required(n.x, p.x), y := Required(n.y, p.y),
       scanUrl := Patch(n.scanUrl, p.scanUrl), scanPorts := Patch(n.scanPorts, p.scanPorts),
       props := PatchProps(mode, n.props, p.props))
  }

  function Sync(mode: Mode, bs: seq<Boundary>, id: Uuid, current: Option<Uuid>,
                home: Option<Uuid>): (r: seq<Boundary>)
    ensures |r| == |bs|
    ensures forall i | 0 <= i < |bs| :: r[i].(members := bs[i].members) == bs[i]
  {
    match mode
    case View => FullScan(bs, id, home)
    case Root => Incremental(bs, id, current, home)
  }

  /** Both sides of a membership change for a node already in the graph. */
  function Move(mode: Mode, g: Graph, i: nat, home: Option<Uuid>): (r: Graph)
    requires i < |g.nodes|
    ensures NodeIds(r.nodes) == NodeIds(g.nodes)
  {
    var n := g.nodes[i];
    var nodes := g.nodes[i := n.(home := home)];
    assert NodeIds(nodes) == NodeIds(g.nodes) by {
      assert forall j | 0 <= j < |nodes| :: nodes[j].id == g.nodes[j].id;
      assert forall m <- g.nodes :: exists k | 0 <= k < |nodes| :: nodes[k].id == m.id;
    }
    Graph(nodes, g.edges, Sync(mode, g.boundaries, n.id, n.home, home))
  }

  function MoveAll(mode: Mode, g: Graph, ids: seq<Uuid>, home: Option<Uuid>): (r: Graph)
    requires forall id <- ids :: id in NodeIds(g.nodes)
    ensures NodeIds(r.nodes) == NodeIds(g.nodes)
    decreases |ids|
  {
    if ids == [] then g
    else MoveAll(mode, Move(mode, g, FindNode(g.nodes, ids[0]).value, home), ids[1..], home)
  }

  predicate HomeExists(g: Graph, home: Option<Uuid>) {
    home.Some? ==> home.value in BoundaryIds(g.boundaries)
  }

  function CreateNode(mode: Mode, g: Graph, n: Node, home: Option<Uuid>): Result<Graph, EditError> {
    if mode == Root && n.id in NodeIds(g.nodes) then Err(DuplicateId)
    else if !HomeExists(g, home) then Err(InvalidBoundary)
    else Ok(Graph(g.nodes + [n.(home := home)], g.edges, Sync(mode, g.boundaries, n.id, None, home)))
  }

  /** The tables refuse a null when the pending row is flushed, before the boundary is looked up; a view is
      validated as a whole when it is stored, after that. */
  function PatchRefusal(mode: Mode, p: NodePatch, homeExists: bool): Option<EditError> {
    if mode == Root && NullsRequired(p) then Some(NullField)
    else if !homeExists then Some(InvalidBoundary)
    else if NullsRequired(p) then Some(NullField)
    else None
  }

  function UpdateNode(mode: Mode, g: Graph, id: Uuid, p: NodePatch): Result<Graph, EditError> {
    match FindNode(g.nodes, id)
    case None => Err(NotFound)
    case Some(i) =>
      var edited := g.(nodes := g.nodes[i := Patched(mode, g.nodes[i], p)]);
      var refusal := PatchRefusal(mode, p, p.home.Some? ==> HomeExists(g, p.home.value));
      if refusal.Some? then Err(refusal.value)
      else if p.home == None then Ok(edited)
      else Ok(Move(mode, edited, i, p.home.value))
  }

  function DeleteNode(mode: Mode, g: Graph, id: Uuid): Result<Graph, EditError> {
    match FindNode(g.nodes, id)
    case None => Err(NotFound)
    case Some(i) =>
      var cleared := Move(mode, g, i, None);
      Ok(Graph(WithoutNode(cleared.nodes, id), WithoutIncident(g.edges, id), cleared.boundaries))
  }

  /** The ends an edge may have.  The root tables check them by foreign keys that span all models; `elsewhere`
      holds the ids of the other models' nodes. */
  predicate EndExists(mode: Mode, nodes: set<Uuid>, id: Uuid, elsewhere: set<Uuid>) {
    id in nodes || (mode == Root && id in elsewhere)
  }

  function CreateEdge(mode: Mode, g: Graph, e: Edge, elsewhere: set<Uuid>): Result<Graph, EditError> {
    if mode == Root && e.id in EdgeIds(g.edges) then Err(DuplicateId)
    else if !EndExists(mode, NodeIds(g.nodes), e.source, elsewhere) then Err(InvalidEndpoints)
    else if !EndExists(mode, NodeIds(g.nodes), e.target, elsewhere) then Err(InvalidEndpoints)
    else Ok(g.(edges := g.edges + [e]))
  }

  function UpdateEdge(mode: Mode, g: Graph, id: Uuid, caption: Option<Option<string>>, props: Option<Props>)
    : Result<Graph, EditError>
  {
    match FindEdge(g.edges, id)
    case None => Err(NotFound)
    case Some(i) =>
      var e := g.edges[i];
      if caption == Some(None) then Err(NullField)
      else
        Ok(g.(edges := g.edges[i := e.(caption := Required(e.caption, caption),
                                       props := PatchProps(mode, e.props, props))]))
  }

  function DeleteEdge(g: Graph, id: Uuid): Result<Graph, EditError> {
    if FindEdge(g.edges, id) == None then Err(NotFound)
    else Ok(g.(edges := WithoutEdge(g.edges, id)))
  }

  /** The handle dragged from decides the edge's direction. */
  function QuickLink(origin: Uuid, fromOrigin: bool, added: Uuid, e: Edge): Edge {
    if fromOrigin then e.(source := origin, target := added) else e.(source := added, target := origin)
  }

  /** A node and its connecting edge. */
  function QuickAdd(mode: Mode, g: Graph, origin: Uuid, fromOrigin: bool, n: Node, home: Option<Uuid>, e: Edge)
    : Result<Graph, EditError>
  {
    if FindNode(g.nodes, origin) == None then Err(NotFound)
    else match CreateNode(mode, g, n, home)
      case Err(err) => Err(err)
      case Ok(g1) =>
        var link := QuickLink(origin, fromOrigin, n.id, e);
        if mode == Root && e.id in EdgeIds(g.edges) then Err(DuplicateId) else Ok(g1.(edges := g1.edges + [link]))
  }

  function Positions(nodes: seq<Node>, ids: seq<Uuid>): seq<Point>
    requires forall id <- ids :: id in NodeIds(nodes)
  {
    seq(|ids|, i requires 0 <= i < |ids| =>
      var n := nodes[FindNode(nodes, ids[i]).value]; Point(n.x, n.y))
  }

  /** Why a boundary request is refused, given the ids already in the diagram. */
  function BoundaryRefusal(mode: Mode, nodes: set<Uuid>, boundaries: set<Uuid>, id: Uuid,
                           d: BoundaryDraft): Option<EditError> {
    if exists x <- d.members :: x !in nodes then Some(InvalidMembers)
    else if mode == View then None
    else if d.parent.Some? && d.parent.value !in boundaries then Some(InvalidBoundary)
    else if d.parent == Some(id) then Some(SelfParent)
    else if id in boundaries then Some(DuplicateId)
    else None
  }

  /** Custom views drop the requested kind and parent; the root diagram stores and checks them. */
  function NewBoundaryRecord(mode: Mode, id: Uuid, d: BoundaryDraft, ps: seq<Point>): Boundary {
    Boundary(id, d.name, [], ResolveGeometry(d.rect, ps),
             if mode == View then None else d.kind, if mode == View then None else d.parent)
  }

  function CreateBoundary(mode: Mode, g: Graph, id: Uuid, d: BoundaryDraft): Result<Graph, EditError> {
    var refusal := BoundaryRefusal(mode, NodeIds(g.nodes), BoundaryIds(g.boundaries), id, d);
    if refusal.Some? then Err(refusal.value)
    else
      var ids := Dedupe(d.members);
      var b := NewBoundaryRecord(mode, id, d, Positions(g.nodes, ids));
      Ok(MoveAll(mode, g.(boundaries := g.boundaries + [b]), ids, Some(id)))
  }

  function ClearHome(nodes: seq<Node>, id: Uuid): (r: seq<Node>)
    ensures |r| == |nodes|
  {
    seq(|nodes|, i requires 0 <= i < |nodes| =>
      if nodes[i].home == Some(id) then nodes[i].(home := None) else nodes[i])
  }

  /** The foreign key `parent_boundary_id ... ON DELETE SET NULL`. */
  function ClearParent(bs: seq<Boundary>, id: Uuid): (r: seq<Boundary>)
    ensures |r| == |bs|
  {
    seq(|bs|, i requires 0 <= i < |bs| =>
      if bs[i].parent == Some(id) then bs[i].(parent := None) else bs[i])
  }

  function Remaining(mode: Mode, bs: seq<Boundary>, id: Uuid): seq<Boundary> {
    if mode == View then WithoutBoundary(bs, id) else ClearParent(WithoutBoundary(bs, id), id)
  }

  function DeleteBoundary(mode: Mode, g: Graph, id: Uuid): Result<Graph, EditError> {
    if FindBoundary(g.boundaries, id) == None then Err(NotFound)
    else Ok(Graph(ClearHome(g.nodes, id), g.edges, Remaining(mode, g.boundaries, id)))
  }
}
