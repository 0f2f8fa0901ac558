/** The editor's request handlers, updating node, edge and boundary lists in place.  Each is proved
    against the graph function of the same name. */
module GraphEditor {
  import opened Wrappers
  import opened DfdGraph
  import opened Geometry
  import opened Membership
  import Ops = GraphOps
  import opened GraphTables
  import opened EditorRefinement

  type Mode = Ops.Mode
  type EditError = Ops.EditError

  /** The handler raised `err` and the stored graph is untouched, or it stored what `spec` computes. */
  ghost predicate Answered(before: Graph, after: Graph, err: Option<EditError>, spec: Result<Graph, EditError>) {
    match spec
    case Ok(g) => err == None && after == g
    case Err(e) => err == Some(e) && after == before
  }

  /** The assignments of `update_node`, one per field the client sent. */
  method ApplyPatch(mode: Mode, was: Node, p: Ops.NodePatch) returns (n: Node)
    requires !Ops.NullsRequired(p)
    ensures n == Ops.Patched(mode, was, p)
  {
    var name, nodeType, x, y := was.name, was.nodeType, was.x, was.y;
    if p.name.Some? { name := p.name.value.value; }
    if p.nodeType.Some? { nodeType := p.nodeType.value.value; }
    if p.x.Some? { x := p.x.value.value; }
    if p.y.Some? { y := p.y.value.value; }
    var scanUrl, scanPorts, props := was.scanUrl, was.scanPorts, was.props;
    if p.scanUrl.Some? { scanUrl := p.scanUrl.value; }
    if p.scanPorts.Some? { scanPorts := p.scanPorts.value; }
    if p.props.Some? && (mode == Mode.Root || p.props.value != NullProps) { props := p.props.value; }
    n := was.(name := name, nodeType := nodeType, x := x, y := y, scanUrl := scanUrl, scanPorts := scanPorts,
              props := props);
  }

  class Editor {
    const mode: Mode
    var nodes: seq<Node>
    var edges: seq<Edge>
    var boundaries: seq<Boundary>

    /** The root tables have a primary key; a view document promises nothing. */
    ghost predicate Valid()
      reads this
    {
      mode == Ops.Root ==> UniqueBoundaries(boundaries)
    }

    function Value(): Graph
      reads this
    {
      Graph(nodes, edges, boundaries)
    }

    constructor (m: Mode, g: Graph)
      requires m == Ops.Root ==> UniqueBoundaries(g.boundaries)
      ensures Valid() && mode == m && Value() == g
    {
      mode, nodes, edges, boundaries := m, g.nodes, g.edges, g.boundaries;
    }

    /** `_sync_node_boundary_membership_in_dfd`: scan every boundary, then append to the new one. */
    method SyncFullScan(id: Uuid, home: Option<Uuid>)
      modifies this`boundaries
      ensures boundaries == FullScan(old(boundaries), id, home)
    {
      for i := 0 to |boundaries|
        invariant |boundaries| == |old(boundaries)|
        invariant forall k | 0 <= k < i ::
                    boundaries[k] == old(boundaries)[k].(members := RemoveMember(old(boundaries)[k].members, id))
        invariant forall k | i <= k < |boundaries| :: boundaries[k] == old(boundaries)[k]
      {
        var b := boundaries[i];
        boundaries := boundaries[i := b.(members := RemoveMember(b.members, id))];
      }
      assert boundaries == ScanRemove(old(boundaries), id);
      if home.Some? {
        var at := FindBoundary(boundaries, home.value);
        if at.Some? && id !in boundaries[at.value].members {
          var b := boundaries[at.value];
          boundaries := boundaries[at.value := b.(members := b.members + [id])];
        }
      }
    }

    /** `_sync_node_boundary_membership`: load the current and the new row, and touch no other. */
    method SyncIncremental(id: Uuid, current: Option<Uuid>, home: Option<Uuid>)
      requires UniqueBoundaries(boundaries)
      modifies this`boundaries
      ensures boundaries == Incremental(old(boundaries), id, current, home)
    {
      var from := if current.Some? then FindBoundary(boundaries, current.value) else None;
      var to := if home.Some? then FindBoundary(boundaries, home.value) else None;
      if from.Some? {
        var b := boundaries[from.value];
        boundaries := boundaries[from.value := b.(members := RemoveMember(b.members, id))];
      }
      if to.Some? {
        var b := boundaries[to.value];
        boundaries := boundaries[to.value := b.(members := AddMember(b.members, id))];
      }
      forall k | 0 <= k < |boundaries|
        ensures boundaries[k]
                == old(boundaries)[k].(members := IncrementalMembers(old(boundaries)[k], id, current, home))
      {
        RowTouched(old(boundaries), k, current);
        RowTouched(old(boundaries), k, home);
      }
    }

    method Sync(id: Uuid, current: Option<Uuid>, home: Option<Uuid>)
      requires Valid()
      modifies this`boundaries
      ensures Valid() && boundaries == Ops.Sync(mode, old(boundaries), id, current, home)
    {
      match mode {
        case View => SyncFullScan(id, home);
        case Root =>
          SyncIncremental(id, current, home);
          SameButMembersIds(old(boundaries), boundaries);
          SameIds(old(boundaries), boundaries);
      }
    }

    method MoveAt(i: nat, home: Option<Uuid>)
      requires Valid() && i < |nodes|
      modifies this`nodes, this`boundaries
      ensures Valid() && Value() == Ops.Move(mode, old(Value()), i, home)
    {
      var n := nodes[i];
      Sync(n.id, n.home, home);
      nodes := nodes[i := n.(home := home)];
    }

    predicate HomeExists(home: Option<Uuid>)
      reads this`boundaries
    {
      home.Some? ==> home.value in BoundaryIds(boundaries)
    }

    method CreateNode(n: Node, home: Option<Uuid>) returns (err: Option<EditError>)
      requires Valid()
      modifies this`nodes, this`boundaries
      ensures Valid() && Answered(old(Value()), Value(), err, Ops.CreateNode(mode, old(Value()), n, home))
    {
      if mode == Ops.Root && n.id in NodeIds(nodes) { return Some(Ops.DuplicateId); }
      if !HomeExists(home) { return Some(Ops.InvalidBoundary); }
      Sync(n.id, None, home);
      nodes := nodes + [n.(home := home)];
      err := None;
    }

    method UpdateNode(id: Uuid, p: Ops.NodePatch) returns (err: Option<EditError>)
      requires Valid()
      modifies this`nodes, this`boundaries
      ensures Valid() && Answered(old(Value()), Value(), err, Ops.UpdateNode(mode, old(Value()), id, p))
    {
      var at := FindNode(nodes, id);
      if at == None { return Some(Ops.NotFound); }
      if mode == Ops.Root && Ops.NullsRequired(p) { return Some(Ops.NullField); }
      if p.home.Some? && !HomeExists(p.home.value) { return Some(Ops.InvalidBoundary); }
      if Ops.NullsRequired(p) { return Some(Ops.NullField); }
      var n := ApplyPatch(mode, nodes[at.value], p);
      nodes := nodes[at.value := n];
      if p.home.Some? {
        MoveAt(at.value, p.home.value);
      }
      err := None;
    }

    method DeleteNode(id: Uuid) returns (err: Option<EditError>)
      requires Valid()
      modifies this
      ensures Valid() && Answered(old(Value()), Value(), err, Ops.DeleteNode(mode, old(Value()), id))
    {
      var at := FindNode(nodes, id);
      if at == None { return Some(Ops.NotFound); }
      MoveAt(at.value, None);
      nodes := WithoutNode(nodes, id);
      edges := WithoutIncident(edges, id);
      err := None;
    }

    /** A view looks both ends up; the root insert leaves it to the primary and foreign keys. */
    method CreateEdge(e: Edge, elsewhere: set<Uuid>) returns (err: Option<EditError>)
      requires Valid()
      modifies this`edges
      ensures Valid() && Answered(old(Value()), Value(), err, Ops.CreateEdge(mode, old(Value()), e, elsewhere))
    {
      if mode == Ops.View {
        if FindNode(nodes, e.source) == None || FindNode(nodes, e.target) == None { return Some(Ops.InvalidEndpoints); }
      } else {
        if FindEdge(edges, e.id).Some? { return Some(Ops.DuplicateId); }
        var keys := NodeIds(nodes) + elsewhere;
        if e.source !in keys || e.target !in keys { return Some(Ops.InvalidEndpoints); }
      }
      edges := edges + [e];
      err := None;
    }

    method UpdateEdge(id: Uuid, caption: Option<Option<string>>, props: Option<Props>) returns (err: Option<EditError>)
      requires Valid()
      modifies this`edges
      ensures Valid() && Answered(old(Value()), Value(), err, Ops.UpdateEdge(mode, old(Value()), id, caption, props))
    {
      var at := FindEdge(edges, id);
      if at == None { return Some(Ops.NotFound); }
      var e := edges[at.value];
      if caption.Some? {
        if caption.value == None { return Some(Ops.NullField); }
        e := e.(caption := caption.value.value);
      }
      if props.Some? && (mode == Mode.Root || props.value != NullProps) { e := e.(props := props.value); }
      edges := edges[at.value := e];
      err := None;
    }

    method DeleteEdge(id: Uuid) returns (err: Option<EditError>)
      requires Valid()
      modifies this`edges
      ensures Valid() && Answered(old(Value()), Value(), err, Ops.DeleteEdge(old(Value()), id))
    {
      if FindEdge(edges, id) == None { return Some(Ops.NotFound); }
      edges := WithoutEdge(edges, id);
      err := None;
    }

    /** In the root both inserts are one transaction: the second failing rolls the first back. */
    method QuickAdd(origin: Uuid, fromOrigin: bool, n: Node, home: Option<Uuid>, e: Edge)
      returns (err: Option<EditError>)
      requires Valid()
      modifies this
      ensures Valid()
           && Answered(old(Value()), Value(), err, Ops.QuickAdd(mode, old(Value()), origin, fromOrigin, n, home, e))
      ensures err == None ==>
                |edges| == |old(edges)| + 1 && edges[..|old(edges)|] == old(edges)
                && var link := edges[|old(edges)|];
                   && link.id == e.id && link.caption == e.caption && link.props == e.props
                   && link.source == (if fromOrigin then origin else n.id)
                   && link.target == (if fromOrigin then n.id else origin)
    {
      if FindNode(nodes, origin) == None { return Some(Ops.NotFound); }
      var was := Value();
      err := CreateNode(n, home);
      if err == None {
        if mode == Ops.Root && FindEdge(edges, e.id).Some? {
          nodes, boundaries := was.nodes, was.boundaries;
          return Some(Ops.DuplicateId);
        }
        var link := if fromOrigin then Edge(e.id, origin, n.id, e.caption, e.props)
                    else Edge(e.id, n.id, origin, e.caption, e.props);
        edges := edges + [link];
      }
    }

    method CreateBoundary(id: Uuid, d: Ops.BoundaryDraft) returns (err: Option<EditError>)
      requires Valid()
      modifies this`nodes, this`boundaries
      ensures Valid() && Answered(old(Value()), Value(), err, Ops.CreateBoundary(mode, old(Value()), id, d))
    {
      var ids := Dedupe(d.members);
      if exists x <- d.members :: x !in NodeIds(nodes) { return Some(Ops.InvalidMembers); }
      var kind, parent := None, None;
      if mode == Ops.Root {
        if d.parent.Some? && FindBoundary(boundaries, d.parent.value) == None { return Some(Ops.InvalidBoundary); }
        if d.parent == Some(id) { return Some(Ops.SelfParent); }
        if FindBoundary(boundaries, id).Some? { return Some(Ops.DuplicateId); }
        kind, parent := d.kind, d.parent;
      }
      var b := Boundary(id, d.name, [], ResolveGeometry(d.rect, Ops.Positions(nodes, ids)), kind, parent);
      if mode == Ops.Root { BoundaryAppended(boundaries, b); }
      boundaries := boundaries + [b];
      MoveMembers(ids, Some(id));
      err := None;
    }

    method MoveMembers(ids: seq<Uuid>, home: Option<Uuid>)
      requires Valid() && forall x <- ids :: x in NodeIds(nodes)
      modifies this`nodes, this`boundaries
      ensures Valid() && Value() == Ops.MoveAll(mode, old(Value()), ids, home)
    {
      ghost var start := Value();
      for i := 0 to |ids|
        invariant Valid() && edges == start.edges && NodeIds(nodes) == NodeIds(start.nodes)
        invariant Ops.MoveAll(mode, Value(), ids[i..], home) == Ops.MoveAll(mode, start, ids, home)
      {
        assert ids[i..][0] == ids[i] && ids[i..][1..] == ids[i + 1..];
        MoveAt(FindNode(nodes, ids[i]).value, home);
      }
    }

    method DeleteBoundary(id: Uuid) returns (err: Option<EditError>)
      requires Valid()
      modifies this`nodes, this`boundaries
      ensures Valid() && Answered(old(Value()), Value(), err, Ops.DeleteBoundary(mode, old(Value()), id))
    {
      if FindBoundary(boundaries, id) == None { return Some(Ops.NotFound); }
      for i := 0 to |nodes|
        invariant |nodes| == |old(nodes)| && boundaries == old(boundaries)
        invariant forall k | 0 <= k < i :: nodes[k] == Ops.ClearHome(old(nodes), id)[k]
        invariant forall k | i <= k < |nodes| :: nodes[k] == old(nodes)[k]
      {
        if nodes[i].home == Some(id) {
          nodes := nodes[i := nodes[i].(home := None)];
        }
      }
      assert nodes == Ops.ClearHome(old(nodes), id);
      boundaries := Ops.Remaining(mode, boundaries, id);
      if mode == Ops.Root { RemainingBoundaries(mode, old(boundaries), id); }
      err := None;
    }
  }

  /** With unique ids, looking a boundary up by id finds row `k` exactly when row `k` has that id. */
  lemma RowTouched(bs: seq<Boundary>, k: nat, id: Option<Uuid>)
    requires UniqueBoundaries(bs) && k < |bs|
    ensures id == Some(bs[k].id) <==> id.Some? && FindBoundary(bs, id.value) == Some(k)
  {
    if id == Some(bs[k].id) {
      assert bs[k] in bs;
      var at := FindBoundary(bs, id.value).value;
      assert bs[at].id == bs[k].id;
    }
  }
}
