/** What an accepted editor request changes, read off the stored records: each field that was sent, each record that
    goes, and nothing else. */
module EditorEffects {
  import opened Wrappers
  import opened DfdGraph
  import opened Geometry
  import opened GraphOps
  import opened GraphTables
  import opened EditorRuns

  // ---- Fields ----

  /** A field the client left out is as it was, a field it sent is as it sent it. */
  ghost predicate FieldsAsSent(mode: Mode, was: Node, p: NodePatch, now: Node) {
    && now.id == was.id
    && (if p.name == None then now.name == was.name else p.name.value == Some(now.name))
    && (if p.nodeType == None then now.nodeType == was.nodeType else p.nodeType.value == Some(now.nodeType))
    && (if p.x == None then now.x == was.x else p.x.value == Some(now.x))
    && (if p.y == None then now.y == was.y else p.y.value == Some(now.y))
    && now.scanUrl == (if p.scanUrl == None then was.scanUrl else p.scanUrl.value)
    && now.scanPorts == (if p.scanPorts == None then was.scanPorts else p.scanPorts.value)
    && now.home == (if p.home == None then was.home else p.home.value)
    && PropsAsSent(mode, was.props, p.props, now.props)
  }

  /** Properties likewise, but a view ignores a null. */
  ghost predicate PropsAsSent(mode: Mode, was: Props, sent: Option<Props>, now: Props) {
    now == if sent == None || (mode == View && sent == Some(NullProps)) then was else sent.value
  }

  /** Only record `i` may have changed. */
  ghost predicate OnlyAt<T>(before: seq<T>, after: seq<T>, i: nat) {
    |after| == |before| && forall k | 0 <= k < |before| && k != i :: after[k] == before[k]
  }

  lemma UpdateNodeFields(mode: Mode, g: Graph, id: Uuid, p: NodePatch) returns (i: nat)
    requires UpdateNode(mode, g, id, p).Ok?
    ensures i < |g.nodes| && g.nodes[i].id == id && forall k | 0 <= k < i :: g.nodes[k].id != id
    ensures var r := UpdateNode(mode, g, id, p).value;
            OnlyAt(g.nodes, r.nodes, i) && FieldsAsSent(mode, g.nodes[i], p, r.nodes[i]) && r.edges == g.edges
            && (p.home == None ==> r.boundaries == g.boundaries)
  {
    i := FindNode(g.nodes, id).value;
    PatchedFields(mode, g.nodes[i], p);
    if p.home.Some? {
      var edited := g.(nodes := g.nodes[i := Patched(mode, g.nodes[i], p)]);
      assert Move(mode, edited, i, p.home.value).nodes == edited.nodes[i := edited.nodes[i].(home := p.home.value)];
    }
  }

  lemma PatchedFields(mode: Mode, n: Node, p: NodePatch)
    requires !NullsRequired(p)
    ensures FieldsAsSent(mode, n, p.(home := None), Patched(mode, n, p))
    ensures p.home.Some? ==> FieldsAsSent(mode, n, p, Patched(mode, n, p).(home := p.home.value))
  {}

  /** A null for a required field, an unknown node or an unknown boundary, in the order of the mode. */
  lemma UpdateNodeRefusal(mode: Mode, g: Graph, id: Uuid, p: NodePatch)
    ensures var r := UpdateNode(mode, g, id, p);
            var nulls := p.name == Some(None) || p.nodeType == Some(None) || p.x == Some(None) || p.y == Some(None);
            var lost := p.home.Some? && p.home.value.Some? && forall b <- g.boundaries :: b.id != p.home.value.value;
            && (r.Ok? <==> (exists n <- g.nodes :: n.id == id) && !nulls && !lost)
            && (r == Err(NotFound) <==> forall n <- g.nodes :: n.id != id)
            && (r == Err(NullField) <==> (exists n <- g.nodes :: n.id == id) && nulls && (mode == Root || !lost))
  {}

  lemma UpdateEdgeFields(mode: Mode, g: Graph, id: Uuid, caption: Option<Option<string>>, props: Option<Props>)
    returns (i: nat)
    requires UpdateEdge(mode, g, id, caption, props).Ok?
    ensures i < |g.edges| && g.edges[i].id == id && forall k | 0 <= k < i :: g.edges[k].id != id
    ensures var r := UpdateEdge(mode, g, id, caption, props).value;
            && OnlyAt(g.edges, r.edges, i) && r.nodes == g.nodes && r.boundaries == g.boundaries
            && var was, now := g.edges[i], r.edges[i];
               && now.id == was.id && now.source == was.source && now.target == was.target
               && (if caption == None then now.caption == was.caption else caption.value == Some(now.caption))
               && PropsAsSent(mode, was.props, props, now.props)
  {
    i := FindEdge(g.edges, id).value;
  }

  /** Dragging from a node's source handle draws the edge away from it, from its target handle towards it. */
  lemma QuickAddDirection(mode: Mode, g: Graph, origin: Uuid, fromOrigin: bool, n: Node, home: Option<Uuid>, e: Edge)
    requires QuickAdd(mode, g, origin, fromOrigin, n, home, e).Ok?
    ensures var r := QuickAdd(mode, g, origin, fromOrigin, n, home, e).value;
            r.nodes == g.nodes + [n.(home := home)]
            && r.edges == g.edges + [Edge(e.id, if fromOrigin then origin else n.id,
                                          if fromOrigin then n.id else origin, e.caption, e.props)]
  {}

  // ---- Deletions ----

  function Shifted(at: seq<nat>): (r: seq<nat>)
    ensures |r| == |at| && forall k | 0 <= k < |at| :: r[k] == at[k] + 1
  {
    seq(|at|, k requires 0 <= k < |at| => at[k] + 1)
  }

  function Marked(at: seq<nat>, keep: bool): seq<nat> {
    if keep then [0] + Shifted(at) else Shifted(at)
  }

  lemma MarkedIn(at: seq<nat>, keep: bool, i: nat)
    ensures i + 1 in Marked(at, keep) <==> i in at
    ensures 0 in Marked(at, keep) <==> keep
  {
    if i in at {
      var k :| 0 <= k < |at| && at[k] == i;
      assert Shifted(at)[k] == i + 1;
    }
    assert i + 1 in Shifted(at) <==> i in at;
  }

  lemma PickedDrop<T>(x: T, before: seq<T>, after: seq<T>, at: seq<nat>)
    requires PickedAt(before, after, at)
    ensures PickedAt([x] + before, after, Shifted(at))
  {}

  lemma PickedTake<T>(x: T, before: seq<T>, after: seq<T>, at: seq<nat>)
    requires PickedAt(before, after, at)
    ensures PickedAt([x] + before, [x] + after, [0] + Shifted(at))
  {
    var s, r, at' := [x] + before, [x] + after, [0] + Shifted(at);
    forall k | 0 <= k < |at'| ensures at'[k] < |s| && r[k] == s[at'[k]] {
      if k > 0 { assert r[k] == after[k - 1] && at'[k] == at[k - 1] + 1; }
    }
  }

  lemma PickedCons<T>(x: T, before: seq<T>, after: seq<T>, at: seq<nat>, keep: bool) returns (at': seq<nat>)
    requires PickedAt(before, after, at)
    ensures PickedAt([x] + before, (if keep then [x] else []) + after, at') && at' == Marked(at, keep)
  {
    at' := Marked(at, keep);
    if keep {
      PickedTake(x, before, after, at);
    } else {
      PickedDrop(x, before, after, at);
      assert [] + after == after;
    }
  }

  lemma {:induction false} NodesLeft(nodes: seq<Node>, id: Uuid) returns (at: seq<nat>)
    ensures PickedAt(nodes, WithoutNode(nodes, id), at)
    ensures forall i | 0 <= i < |nodes| :: i in at <==> nodes[i].id != id
  {
    at := [];
    if nodes != [] {
      var first, others := nodes[0], nodes[1..];
      assert nodes == [first] + others;
      var rest := NodesLeft(others, id);
      var keep := nodes[0].id != id;
      at := PickedCons(first, others, WithoutNode(others, id), rest, keep);
      forall i | 0 <= i < |nodes| ensures i in at <==> nodes[i].id != id {
        if i > 0 { MarkedIn(rest, keep, i - 1); } else { MarkedIn(rest, keep, 0); }
      }
    }
  }

  lemma {:induction false} EdgesLeft(edges: seq<Edge>, id: Uuid) returns (at: seq<nat>)
    ensures PickedAt(edges, WithoutEdge(edges, id), at)
    ensures forall i | 0 <= i < |edges| :: i in at <==> edges[i].id != id
  {
    at := [];
    if edges != [] {
      var first, others := edges[0], edges[1..];
      assert edges == [first] + others;
      var rest := EdgesLeft(others, id);
      var keep := edges[0].id != id;
      at := PickedCons(first, others, WithoutEdge(others, id), rest, keep);
      forall i | 0 <= i < |edges| ensures i in at <==> edges[i].id != id {
        if i > 0 { MarkedIn(rest, keep, i - 1); } else { MarkedIn(rest, keep, 0); }
      }
    }
  }

  lemma {:induction false} UntouchedEdges(edges: seq<Edge>, id: Uuid) returns (at: seq<nat>)
    ensures PickedAt(edges, WithoutIncident(edges, id), at)
    ensures forall i | 0 <= i < |edges| :: i in at <==> edges[i].source != id && edges[i].target != id
  {
    at := [];
    if edges != [] {
      var first, others := edges[0], edges[1..];
      assert edges == [first] + others;
      var rest := UntouchedEdges(others, id);
      var keep := edges[0].source != id && edges[0].target != id;
      at := PickedCons(first, others, WithoutIncident(others, id), rest, keep);
      forall i | 0 <= i < |edges| ensures i in at <==> edges[i].source != id && edges[i].target != id {
        if i > 0 { MarkedIn(rest, keep, i - 1); } else { MarkedIn(rest, keep, 0); }
      }
    }
  }

  lemma {:induction false} BoundariesLeft(bs: seq<Boundary>, id: Uuid) returns (at: seq<nat>)
    ensures PickedAt(bs, WithoutBoundary(bs, id), at)
    ensures forall i | 0 <= i < |bs| :: i in at <==> bs[i].id != id
  {
    at := [];
    if bs != [] {
      var first, others := bs[0], bs[1..];
      assert bs == [first] + others;
      var rest := BoundariesLeft(others, id);
      var keep := bs[0].id != id;
      at := PickedCons(first, others, WithoutBoundary(others, id), rest, keep);
      forall i | 0 <= i < |bs| ensures i in at <==> bs[i].id != id {
        if i > 0 { MarkedIn(rest, keep, i - 1); } else { MarkedIn(rest, keep, 0); }
      }
    }
  }

  /** Deleting an edge leaves the others as they were, in order. */
  lemma DeleteEdgeKeeps(g: Graph, id: Uuid) returns (at: seq<nat>)
    requires DeleteEdge(g, id).Ok?
    ensures var r := DeleteEdge(g, id).value;
            PickedAt(g.edges, r.edges, at) && r.nodes == g.nodes && r.boundaries == g.boundaries
    ensures forall i | 0 <= i < |g.edges| :: i in at <==> g.edges[i].id != id
  {
    at := EdgesLeft(g.edges, id);
  }

  lemma {:induction false} RehomedLeft(nodes: seq<Node>, i: nat, n: Node)
    requires i < |nodes| && n.id == nodes[i].id
    ensures WithoutNode(nodes[i := n], n.id) == WithoutNode(nodes, n.id)
  {
    var nodes' := nodes[i := n];
    if i > 0 {
      assert nodes'[1..] == nodes[1..][i - 1 := n];
      RehomedLeft(nodes[1..], i - 1, n);
    } else {
      assert nodes'[1..] == nodes[1..];
    }
  }

  /** Deleting a node takes along the edges that touch it; what is left is as it was, in order. */
  lemma DeleteNodeKeeps(mode: Mode, g: Graph, id: Uuid) returns (nodes: seq<nat>, edges: seq<nat>)
    requires DeleteNode(mode, g, id).Ok?
    ensures var r := DeleteNode(mode, g, id).value;
            PickedAt(g.nodes, r.nodes, nodes) && PickedAt(g.edges, r.edges, edges)
            && SameButMembers(g.boundaries, r.boundaries)
    ensures forall i | 0 <= i < |g.nodes| :: i in nodes <==> g.nodes[i].id != id
    ensures forall i | 0 <= i < |g.edges| :: i in edges <==> g.edges[i].source != id && g.edges[i].target != id
  {
    var i := FindNode(g.nodes, id).value;
    RehomedLeft(g.nodes, i, g.nodes[i].(home := None));
    nodes := NodesLeft(g.nodes, id);
    edges := UntouchedEdges(g.edges, id);
  }

  /** Deleting a boundary clears the homes that name it and, in the root, the parents; nothing else. */
  lemma DeleteBoundaryKeeps(mode: Mode, g: Graph, id: Uuid) returns (at: seq<nat>)
    requires DeleteBoundary(mode, g, id).Ok?
    ensures var r := DeleteBoundary(mode, g, id).value;
            && r.edges == g.edges && |r.nodes| == |g.nodes|
            && (forall i | 0 <= i < |g.nodes| ::
                  r.nodes[i] == g.nodes[i].(home := if g.nodes[i].home == Some(id) then None else g.nodes[i].home))
            && |r.boundaries| == |at|
            && forall k | 0 <= k < |at| ::
                 at[k] < |g.boundaries| && var was := g.boundaries[at[k]];
                 r.boundaries[k] == was.(parent := if mode == Root && was.parent == Some(id) then None else was.parent)
    ensures forall j, k | 0 <= j < k < |at| :: at[j] < at[k]
    ensures forall i | 0 <= i < |g.boundaries| :: i in at <==> g.boundaries[i].id != id
  {
    at := BoundariesLeft(g.boundaries, id);
  }

  // ---- A new boundary ----

  /** A new boundary comes last, drawn as asked where asked; the others keep everything but members. */
  lemma CreateBoundaryRecord(mode: Mode, g: Graph, id: Uuid, d: BoundaryDraft)
    requires CreateBoundary(mode, g, id, d).Ok?
    ensures var r, n := CreateBoundary(mode, g, id, d).value, |g.boundaries|;
            && |r.boundaries| == n + 1 && SameButMembers(g.boundaries, r.boundaries[..n])
            && var b := r.boundaries[n];
               && b.id == id && b.name == d.name && KeepsGiven(b.rect, d.rect)
               && b.kind == (if mode == Root then d.kind else None)
               && b.parent == (if mode == Root then d.parent else None)
  {
    var ids := Dedupe(d.members);
    var b := NewBoundaryRecord(mode, id, d, Positions(g.nodes, ids));
    GivenCoordinatesStay(d.rect, Positions(g.nodes, ids));
    var start := g.(boundaries := g.boundaries + [b]);
    MoveAllRecords(mode, start, ids, Some(id));
    var bs := MoveAll(mode, start, ids, Some(id)).boundaries;
    assert bs[|g.boundaries|].(members := start.boundaries[|g.boundaries|].members) == b;
  }

  lemma CreateBoundaryRefusal(mode: Mode, g: Graph, id: Uuid, d: BoundaryDraft)
    ensures var r := CreateBoundary(mode, g, id, d);
            var known := forall x <- d.members :: exists n <- g.nodes :: n.id == x;
            var orphan := d.parent.Some? && forall b <- g.boundaries :: b.id != d.parent.value;
            var taken := exists b <- g.boundaries :: b.id == id;
            && (r.Ok? <==> known && (mode == Root ==> !orphan && d.parent != Some(id) && !taken))
            && (r == Err(InvalidMembers) <==> !known)
            && (r == Err(InvalidBoundary) <==> known && mode == Root && orphan)
            && (r == Err(SelfParent) <==> known && mode == Root && !orphan && d.parent == Some(id))
  {}
}
